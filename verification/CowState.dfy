/** Address spaces that share pages copy-on-write, as values (`kernel/memory/page_table/page_table.c`).

A page carries its reference count and the copy-on-write mark; a table entry carries its permissions.  For the proof a
page also says at which index it is mapped, and in which processes. */
module CowState {

  datatype Entry = Unmapped | Mapped(pa: nat, user: bool, writable: bool)

  /** A page of memory: count, mark and contents, and for the proof its place and the processes that map it. */
  datatype Page = Page(refcount: nat, cow: bool, data: seq<nat>, home: nat, sharers: set<nat>)

  type Space = seq<Entry>
  type Procs = map<nat, Space>
  type Pages = map<nat, Page>

  /** What a process sees at an index: private contents, and whether it may write them. */
  datatype Held = Nothing | Held(user: bool, writable: bool, data: seq<nat>)

  function At(procs: Procs, p: nat, va: nat): Entry {
    if p in procs && va < |procs[p]| then procs[p][va] else Unmapped
  }

  /** A mapped page exists, is mapped at one index only, and has the process among its sharers.  If it is marked or
      shared, then the entry is a user's and not writable. */
  ghost predicate EntryOk(pages: Pages, p: nat, va: nat, e: Entry) {
    e.Mapped? ==>
      && e.pa in pages && pages[e.pa].home == va && p in pages[e.pa].sharers
      && (pages[e.pa].cow || pages[e.pa].refcount > 1 ==> e.user && !e.writable)
  }

  /** The reference count is the number of processes that map the page, and it is not zero. */
  ghost predicate PageOk(procs: Procs, pa: nat, g: Page) {
    && g.refcount == |g.sharers| && g.sharers != {}
    && forall p :: p in g.sharers ==> At(procs, p, g.home).Mapped? && At(procs, p, g.home).pa == pa
  }

  ghost predicate EntriesOk(procs: Procs, pages: Pages) {
    forall p: nat, va: nat {:trigger At(procs, p, va)} :: EntryOk(pages, p, va, At(procs, p, va))
  }

  ghost predicate PagesOk(procs: Procs, pages: Pages) {
    forall pa :: pa in pages ==> PageOk(procs, pa, pages[pa])
  }

  ghost predicate Sized(n: nat, procs: Procs) {
    forall p :: p in procs ==> |procs[p]| == n
  }

  ghost predicate Inv(n: nat, procs: Procs, pages: Pages) {
    Sized(n, procs) && EntriesOk(procs, pages) && PagesOk(procs, pages)
  }

  // ---------------------------------------------------------------------------
  // What the processes see
  // ---------------------------------------------------------------------------

  ghost function Seen(pages: Pages, e: Entry): Held {
    if e.Mapped? && e.pa in pages then Held(e.user, e.writable || pages[e.pa].cow, pages[e.pa].data) else Nothing
  }

  ghost function See(procs: Procs, pages: Pages, p: nat, va: nat): Held {
    Seen(pages, At(procs, p, va))
  }

  /** Only index `va` of process `p` looks different: it shows `held`. */
  ghost predicate Shows(procs: Procs, pages: Pages, procs': Procs, pages': Pages, p: nat, va: nat, held: Held) {
    && procs'.Keys == procs.Keys
    && See(procs', pages', p, va) == held
    && (forall q: nat, i: nat {:trigger See(procs', pages', q, i)} ::
          !(q == p && i == va) ==> See(procs', pages', q, i) == See(procs, pages, q, i))
  }

  // ---------------------------------------------------------------------------
  // One entry and its page change
  // ---------------------------------------------------------------------------

  function Put(procs: Procs, p: nat, va: nat, e: Entry): Procs
    requires p in procs && va < |procs[p]|
  {
    procs[p := procs[p][va := e]]
  }

  /** `procs'` has entry `e` at `va` of `p`, and is as `procs` elsewhere. */
  ghost predicate Replaces(procs: Procs, procs': Procs, p: nat, va: nat, e: Entry) {
    && procs'.Keys == procs.Keys
    && (forall q :: q in procs ==> |procs'[q]| == |procs[q]|)
    && At(procs', p, va) == e
    && (forall q: nat, i: nat {:trigger At(procs', q, i)} :: !(q == p && i == va) ==> At(procs', q, i) == At(procs, q, i))
  }

  lemma PutReplaces(procs: Procs, p: nat, va: nat, e: Entry)
    requires p in procs && va < |procs[p]|
    ensures Replaces(procs, Put(procs, p, va, e), p, va, e)
  {
  }

  /** Only page `pa` is different. */
  ghost predicate Keeps(pages: Pages, pages': Pages, pa: nat) {
    forall a :: a != pa ==> (a in pages' <==> a in pages) && (a in pages ==> pages'[a] == pages[a])
  }

  /** The entries for page `pa` are in order. */
  ghost predicate PageEntriesOk(procs: Procs, pages: Pages, pa: nat) {
    forall p: nat, va: nat {:trigger At(procs, p, va)} ::
      At(procs, p, va).Mapped? && At(procs, p, va).pa == pa ==> EntryOk(pages, p, va, At(procs, p, va))
  }

  lemma LocalInv(n: nat, procs: Procs, pages: Pages, procs': Procs, pages': Pages, p: nat, va: nat, e: Entry, pa: nat)
    requires Inv(n, procs, pages) && Replaces(procs, procs', p, va, e) && Keeps(pages, pages', pa)
    requires At(procs, p, va).Mapped? ==> At(procs, p, va).pa == pa
    requires e.Mapped? ==> e.pa == pa
    requires PageEntriesOk(procs', pages', pa) && (pa in pages' ==> PageOk(procs', pa, pages'[pa]))
    ensures Inv(n, procs', pages')
  {
    hide At;
    forall q: nat, i: nat
      ensures EntryOk(pages', q, i, At(procs', q, i))
    {
      assert EntryOk(pages, q, i, At(procs, q, i));
    }
    forall a | a in pages' && a != pa
      ensures PageOk(procs', a, pages'[a])
    {
      assert PageOk(procs, a, pages[a]);
    }
  }

  /** The other entries for the page look the same if there are none, or its contents and its mark are the same. */
  lemma LocalShows(n: nat, procs: Procs, pages: Pages, procs': Procs, pages': Pages, p: nat, va: nat, e: Entry, pa: nat)
    requires Replaces(procs, procs', p, va, e) && Keeps(pages, pages', pa)
    requires
      || (pa in pages && pa in pages' && pages'[pa].data == pages[pa].data && pages'[pa].cow == pages[pa].cow)
      || NoOther(procs, p, va, pa)
    ensures Shows(procs, pages, procs', pages', p, va, Seen(pages', e))
  {
    hide At;
  }

  ghost predicate NoOther(procs: Procs, p: nat, va: nat, pa: nat) {
    forall q: nat, i: nat {:trigger At(procs, q, i)} :: At(procs, q, i).Mapped? && At(procs, q, i).pa == pa ==> q == p && i == va
  }

  lemma {:induction false} SubsetSize(a: set<nat>, b: set<nat>)
    requires a <= b
    ensures |a| <= |b|
  {
    if a != {} {
      var x :| x in a;
      SubsetSize(a - {x}, b - {x});
    }
  }

  /** What the invariant says of a mapped page; one that is counted once is mapped once. */
  lemma MappedPage(n: nat, procs: Procs, pages: Pages, p: nat, va: nat)
    requires Inv(n, procs, pages) && At(procs, p, va).Mapped?
    ensures var pa := At(procs, p, va).pa;
            && pa in pages && PageOk(procs, pa, pages[pa]) && EntryOk(pages, p, va, At(procs, p, va))
            && PageEntriesOk(procs, pages, pa)
            && (pages[pa].refcount <= 1 ==> pages[pa].sharers == {p} && NoOther(procs, p, va, pa))
  {
    hide At;
    var pa := At(procs, p, va).pa;
    assert EntryOk(pages, p, va, At(procs, p, va));
    if pages[pa].refcount <= 1 {
      forall q | q in pages[pa].sharers
        ensures q == p
      {
        if q != p {
          SubsetSize({p, q}, pages[pa].sharers);
        }
      }
    }
  }

  // ---------------------------------------------------------------------------
  // Whole address spaces
  // ---------------------------------------------------------------------------

  type View = map<nat, seq<Held>>

  ghost function SpaceOf(n: nat, procs: Procs, pages: Pages, p: nat): seq<Held> {
    seq(n, i requires 0 <= i => See(procs, pages, p, i))
  }

  /** The address spaces as if every process had its own copy of every page. */
  ghost function ViewOf(n: nat, procs: Procs, pages: Pages): View {
    map p | p in procs :: SpaceOf(n, procs, pages, p)
  }

  /** Process `p` holds `h` at `va`. */
  ghost function Set(v: View, p: nat, va: nat, h: Held): View {
    if p in v && va < |v[p]| then v[p := v[p][va := h]] else v
  }

  ghost function Get(v: View, p: nat, va: nat): Held {
    if p in v && va < |v[p]| then v[p][va] else Nothing
  }

  lemma SetSame(v: View, p: nat, va: nat)
    ensures Set(v, p, va, Get(v, p, va)) == v
  {
    if p in v && va < |v[p]| {
      assert v[p][va := v[p][va]] == v[p];
    }
  }

  lemma SetTwice(v: View, p: nat, va: nat, h: Held, h': Held)
    ensures Set(Set(v, p, va, h), p, va, h') == Set(v, p, va, h')
  {
    if p in v && va < |v[p]| {
      assert v[p][va := h][va := h'] == v[p][va := h'];
    }
  }

  lemma GetView(n: nat, procs: Procs, pages: Pages, p: nat, va: nat)
    requires p in procs && va < n
    ensures Get(ViewOf(n, procs, pages), p, va) == See(procs, pages, p, va)
  {
    hide See;
  }

  lemma ShowsView(n: nat, procs: Procs, pages: Pages, procs': Procs, pages': Pages, p: nat, va: nat, held: Held)
    requires Shows(procs, pages, procs', pages', p, va, held) && p in procs && va < n
    ensures ViewOf(n, procs', pages') == Set(ViewOf(n, procs, pages), p, va, held)
  {
    hide See;
    forall q | q in procs
      ensures SpaceOf(n, procs', pages', q) == if q == p then SpaceOf(n, procs, pages, p)[va := held] else SpaceOf(n, procs, pages, q)
    {
      forall i | 0 <= i < n && !(q == p && i == va)
        ensures See(procs', pages', q, i) == See(procs, pages, q, i)
      {
      }
    }
  }

  lemma ShowsSame(n: nat, procs: Procs, pages: Pages, procs': Procs, pages': Pages, p: nat, va: nat)
    requires Shows(procs, pages, procs', pages', p, va, See(procs, pages, p, va)) && p in procs && va < n
    ensures ViewOf(n, procs', pages') == ViewOf(n, procs, pages)
  {
    hide Shows, See;
    ShowsView(n, procs, pages, procs', pages', p, va, See(procs, pages, p, va));
    GetView(n, procs, pages, p, va);
    SetSame(ViewOf(n, procs, pages), p, va);
  }

  // ---------------------------------------------------------------------------
  // The elementary changes keep the invariant
  // ---------------------------------------------------------------------------

  /** `pte_make_readonly_and_mark_cow`: nothing looks different. */
  lemma MarkedInv(n: nat, procs: Procs, pages: Pages, p: nat, va: nat, procs': Procs, pages': Pages)
    requires Inv(n, procs, pages) && p in procs && va < n && procs[p][va].Mapped? && procs[p][va].pa in pages
    requires procs[p][va].user && procs[p][va].writable
    requires procs' == Put(procs, p, va, procs[p][va].(writable := false))
    requires pages' == pages[procs[p][va].pa := pages[procs[p][va].pa].(cow := true)]
    ensures Inv(n, procs', pages') && ViewOf(n, procs', pages') == ViewOf(n, procs, pages)
  {
    var e := procs[p][va];
    MappedPage(n, procs, pages, p, va);
    PutReplaces(procs, p, va, e.(writable := false));
    assert At(procs, p, va) == e;
    LocalInv(n, procs, pages, procs', pages', p, va, e.(writable := false), e.pa);
    LocalShows(n, procs, pages, procs', pages', p, va, e.(writable := false), e.pa);
    ShowsSame(n, procs, pages, procs', pages', p, va);
  }

  /** Sharing: `dst` maps what `src` maps, and the count goes up. */
  lemma SharedInv(n: nat, procs: Procs, pages: Pages, src: nat, dst: nat, va: nat, procs': Procs, pages': Pages)
    requires Inv(n, procs, pages) && src in procs && dst in procs && va < n && procs[dst][va] == Unmapped
    requires procs[src][va].Mapped? && procs[src][va].pa in pages && procs[src][va].user && !procs[src][va].writable
    requires procs' == Put(procs, dst, va, procs[src][va])
    requires var g := pages[procs[src][va].pa];
             pages' == pages[procs[src][va].pa := g.(refcount := g.refcount + 1, sharers := g.sharers + {dst})]
    ensures Inv(n, procs', pages')
    ensures ViewOf(n, procs', pages') == Set(ViewOf(n, procs, pages), dst, va, See(procs, pages, src, va))
  {
    var e := procs[src][va];
    MappedPage(n, procs, pages, src, va);
    PutReplaces(procs, dst, va, e);
    assert At(procs, src, va) == e && At(procs, dst, va) == Unmapped;
    ReadOnlyShare(n, procs, pages, src, dst, va);
    LocalInv(n, procs, pages, procs', pages', dst, va, e, e.pa);
    LocalShows(n, procs, pages, procs', pages', dst, va, e, e.pa);
    ShowsView(n, procs, pages, procs', pages', dst, va, See(procs, pages, src, va));
  }

  /** Every entry for a page that one process maps read-only is read-only, and `dst` has none. */
  lemma ReadOnlyShare(n: nat, procs: Procs, pages: Pages, src: nat, dst: nat, va: nat)
    requires Inv(n, procs, pages) && src in procs && dst in procs && va < n && procs[dst][va] == Unmapped
    requires procs[src][va].Mapped? && procs[src][va].user && !procs[src][va].writable
    ensures procs[src][va].pa in pages && dst !in pages[procs[src][va].pa].sharers
    ensures forall q: nat, i: nat {:trigger At(procs, q, i)} :: At(procs, q, i).Mapped? && At(procs, q, i).pa == procs[src][va].pa ==>
              At(procs, q, i).user && !At(procs, q, i).writable
  {
    MappedPage(n, procs, pages, src, va);
    assert At(procs, src, va) == procs[src][va] && At(procs, dst, va) == Unmapped;
    var pa := At(procs, src, va).pa;
    if pages[pa].refcount > 1 {
    } else {
      assert NoOther(procs, src, va, pa);
    }
  }

  /** A new page, mapped once. */
  lemma AddedInv(n: nat, procs: Procs, pages: Pages, p: nat, va: nat, e: Entry, data: seq<nat>, procs': Procs, pages': Pages)
    requires Inv(n, procs, pages) && p in procs && va < n && procs[p][va] == Unmapped && e.Mapped? && e.pa !in pages
    requires procs' == Put(procs, p, va, e) && pages' == pages[e.pa := Page(1, false, data, va, {p})]
    ensures Inv(n, procs', pages')
    ensures ViewOf(n, procs', pages') == Set(ViewOf(n, procs, pages), p, va, Held(e.user, e.writable, data))
  {
    PutReplaces(procs, p, va, e);
    assert At(procs, p, va) == Unmapped;
    assert NoOther(procs, p, va, e.pa) by {
      assert forall q: nat, i: nat {:trigger At(procs, q, i)} :: EntryOk(pages, q, i, At(procs, q, i));
    }
    LocalInv(n, procs, pages, procs', pages', p, va, e, e.pa);
    LocalShows(n, procs, pages, procs', pages', p, va, e, e.pa);
    ShowsView(n, procs, pages, procs', pages', p, va, Held(e.user, e.writable, data));
  }

  /** `dec_pte_refcount_pa` on a page that others still map. */
  lemma DroppedInv(n: nat, procs: Procs, pages: Pages, p: nat, va: nat, procs': Procs, pages': Pages)
    requires Inv(n, procs, pages) && p in procs && va < n && procs[p][va].Mapped? && procs[p][va].pa in pages
    requires procs' == Put(procs, p, va, Unmapped)
    requires var g := pages[procs[p][va].pa];
             1 < g.refcount && pages' == pages[procs[p][va].pa := g.(refcount := g.refcount - 1, sharers := g.sharers - {p})]
    ensures Inv(n, procs', pages')
    ensures ViewOf(n, procs', pages') == Set(ViewOf(n, procs, pages), p, va, Nothing)
  {
    var pa := procs[p][va].pa;
    MappedPage(n, procs, pages, p, va);
    PutReplaces(procs, p, va, Unmapped);
    assert At(procs, p, va) == procs[p][va];
    var g := pages[pa];
    assert pages'[pa].sharers != {} by {
      assert g.sharers != {p};
    }
    assert PageOk(procs', pa, pages'[pa]);
    LocalInv(n, procs, pages, procs', pages', p, va, Unmapped, pa);
    LocalShows(n, procs, pages, procs', pages', p, va, Unmapped, pa);
    ShowsView(n, procs, pages, procs', pages', p, va, Nothing);
  }

  /** `dec_pte_refcount_pa` on a page's last mapping: the page is free. */
  lemma FreedInv(n: nat, procs: Procs, pages: Pages, p: nat, va: nat, procs': Procs, pages': Pages)
    requires Inv(n, procs, pages) && p in procs && va < n && procs[p][va].Mapped? && procs[p][va].pa in pages
    requires procs' == Put(procs, p, va, Unmapped)
    requires pages[procs[p][va].pa].refcount <= 1 && pages' == pages - {procs[p][va].pa}
    ensures Inv(n, procs', pages')
    ensures ViewOf(n, procs', pages') == Set(ViewOf(n, procs, pages), p, va, Nothing)
  {
    var pa := procs[p][va].pa;
    MappedPage(n, procs, pages, p, va);
    PutReplaces(procs, p, va, Unmapped);
    assert At(procs, p, va) == procs[p][va];
    LocalInv(n, procs, pages, procs', pages', p, va, Unmapped, pa);
    LocalShows(n, procs, pages, procs', pages', p, va, Unmapped, pa);
    ShowsView(n, procs, pages, procs', pages', p, va, Nothing);
  }

  /** `pte_clear_cow_and_make_writable` and `pte_clear_cow_flag` on a page of one's own: nothing looks different. */
  lemma OwnedInv(n: nat, procs: Procs, pages: Pages, p: nat, va: nat, procs': Procs, pages': Pages)
    requires Inv(n, procs, pages) && p in procs && va < n && procs[p][va].Mapped? && procs[p][va].pa in pages
    requires pages[procs[p][va].pa].cow && pages[procs[p][va].pa].refcount <= 1
    requires procs' == Put(procs, p, va, procs[p][va].(writable := true))
    requires pages' == pages[procs[p][va].pa := pages[procs[p][va].pa].(cow := false)]
    ensures Inv(n, procs', pages') && ViewOf(n, procs', pages') == ViewOf(n, procs, pages)
  {
    var e := procs[p][va];
    MappedPage(n, procs, pages, p, va);
    PutReplaces(procs, p, va, e.(writable := true));
    assert At(procs, p, va) == e;
    LocalInv(n, procs, pages, procs', pages', p, va, e.(writable := true), e.pa);
    LocalShows(n, procs, pages, procs', pages', p, va, e.(writable := true), e.pa);
    ShowsSame(n, procs, pages, procs', pages', p, va);
  }

  /** A store through a writable entry is seen by its process alone. */
  lemma StoredInv(n: nat, procs: Procs, pages: Pages, p: nat, va: nat, data: seq<nat>, pages': Pages)
    requires Inv(n, procs, pages) && p in procs && va < n && procs[p][va].Mapped? && procs[p][va].pa in pages
    requires procs[p][va].writable && pages' == pages[procs[p][va].pa := pages[procs[p][va].pa].(data := data)]
    ensures Inv(n, procs, pages')
    ensures ViewOf(n, procs, pages') == Set(ViewOf(n, procs, pages), p, va, Held(procs[p][va].user, true, data))
  {
    var e := procs[p][va];
    MappedPage(n, procs, pages, p, va);
    assert At(procs, p, va) == e;
    LocalInv(n, procs, pages, procs, pages', p, va, e, e.pa);
    LocalShows(n, procs, pages, procs, pages', p, va, e, e.pa);
    ShowsView(n, procs, pages, procs, pages', p, va, Held(procs[p][va].user, true, data));
  }

  /** No count exceeds the number of processes. */
  lemma CountBound(n: nat, procs: Procs, pages: Pages, pa: nat)
    requires Inv(n, procs, pages) && pa in pages
    ensures 1 <= pages[pa].refcount <= |procs|
  {
    assert PageOk(procs, pa, pages[pa]);
    assert pages[pa].sharers <= procs.Keys;
    SubsetSize(pages[pa].sharers, procs.Keys);
  }

  /** A process with nothing mapped comes or goes. */
  lemma EmptyInv(n: nat, procs: Procs, pages: Pages, p: nat, space: Space)
    requires Inv(n, procs, pages) && p !in procs && space == seq(n, _ => Unmapped)
    ensures Inv(n, procs[p := space], pages)
    ensures ViewOf(n, procs[p := space], pages) == ViewOf(n, procs, pages)[p := seq(n, _ => Nothing)]
  {
    var procs' := procs[p := space];
    assert forall q: nat, i: nat {:trigger At(procs', q, i)} :: At(procs', q, i) == At(procs, q, i);
    SameAt(n, procs, procs', pages);
    forall q | q in procs'
      ensures SpaceOf(n, procs', pages, q) == if q == p then seq(n, _ => Nothing) else SpaceOf(n, procs, pages, q)
    {
    }
  }

  lemma GoneInv(n: nat, procs: Procs, pages: Pages, p: nat)
    requires Inv(n, procs, pages) && p in procs && ViewOf(n, procs, pages)[p] == seq(n, _ => Nothing)
    ensures Inv(n, procs - {p}, pages)
    ensures ViewOf(n, procs - {p}, pages) == ViewOf(n, procs, pages) - {p}
  {
    var procs' := procs - {p};
    forall i: nat
      ensures At(procs, p, i) == Unmapped
    {
      if i < n {
        assert SpaceOf(n, procs, pages, p)[i] == See(procs, pages, p, i);
        assert EntryOk(pages, p, i, At(procs, p, i));
      }
    }
    assert forall q: nat, i: nat {:trigger At(procs', q, i)} :: At(procs', q, i) == At(procs, q, i);
    SameAt(n, procs, procs', pages);
    forall q | q in procs'
      ensures SpaceOf(n, procs', pages, q) == SpaceOf(n, procs, pages, q)
    {
    }
  }

  lemma SameAt(n: nat, procs: Procs, procs': Procs, pages: Pages)
    requires Inv(n, procs, pages) && Sized(n, procs')
    requires forall q: nat, i: nat {:trigger At(procs', q, i)} :: At(procs', q, i) == At(procs, q, i)
    ensures Inv(n, procs', pages)
  {
    hide At;
    forall pa | pa in pages
      ensures PageOk(procs', pa, pages[pa])
    {
      assert PageOk(procs, pa, pages[pa]);
    }
  }
}

/**
 threads/palloc.c: page groups handed out first-fit from two pools, each with a
 bitmap of used pages.  `groups` records, per pool, the groups handed out and not
 yet freed, from first page index to page count.
 */
module PageAllocator {
  import opened Common
  import opened Bitmaps

  const PGSIZE: nat := 4096

  type Groups = map<nat, nat>

  ghost predicate Covers(g: Groups, i: nat) {
    exists s :: s in g && s <= i < s + g[s]
  }

  /** The set bits are exactly the union of the live groups, which are nonempty
      and pairwise disjoint. */
  ghost predicate GroupsOk(bits: seq<bool>, g: Groups) {
    && (forall s :: s in g ==> 0 < g[s] && s + g[s] <= |bits|)
    && (forall s, t :: s in g && t in g && s != t ==> s + g[s] <= t || t + g[t] <= s)
    && (forall i :: 0 <= i < |bits| ==> (bits[i] <==> Covers(g, i)))
  }

  /** A free group lies beside every live one. */
  lemma FreeGroupApart(bits: seq<bool>, g: Groups, s: nat, cnt: nat, t: nat)
    requires GroupsOk(bits, g) && cnt > 0 && s + cnt <= |bits| && AllBits(bits, s, cnt, false) && t in g
    ensures t + g[t] <= s || s + cnt <= t
  {
    assert s <= t < s + cnt ==> Covers(g, t);
    assert t <= s < t + g[t] ==> Covers(g, s);
  }

  lemma CoversTaken(g: Groups, s: nat, cnt: nat, i: nat)
    requires s !in g
    ensures Covers(g[s := cnt], i) <==> s <= i < s + cnt || Covers(g, i)
  {
    var g' := g[s := cnt];
    if s <= i < s + cnt {
      assert s in g' && s <= i < s + g'[s];
    }
    if Covers(g, i) {
      var t :| t in g && t <= i < t + g[t];
      assert t in g' && t <= i < t + g'[t];
    }
  }

  /** Taking a free group keeps the record exact. */
  lemma TakeGroup(bits: seq<bool>, g: Groups, s: nat, cnt: nat)
    requires GroupsOk(bits, g) && cnt > 0 && s + cnt <= |bits| && AllBits(bits, s, cnt, false)
    ensures s !in g && GroupsOk(SetBits(bits, s, cnt, true), g[s := cnt])
  {
    var bits', g' := SetBits(bits, s, cnt, true), g[s := cnt];
    forall t | t in g ensures t != s && (t + g[t] <= s || s + cnt <= t) {
      FreeGroupApart(bits, g, s, cnt, t);
    }
    forall t, u | t in g' && u in g' && t != u ensures t + g'[t] <= u || u + g'[u] <= t {}
    forall i | 0 <= i < |bits'| ensures bits'[i] <==> Covers(g', i) {
      CoversTaken(g, s, cnt, i);
    }
  }

  lemma CoversFreed(bits: seq<bool>, g: Groups, s: nat, i: nat)
    requires GroupsOk(bits, g) && s in g
    ensures Covers(g - {s}, i) <==> Covers(g, i) && !(s <= i < s + g[s])
  {
    var g' := g - {s};
    if Covers(g, i) && !(s <= i < s + g[s]) {
      var t :| t in g && t <= i < t + g[t];
      assert t in g';
    }
    forall t | t in g' ensures t <= i < t + g'[t] ==> Covers(g, i) && !(s <= i < s + g[s]) {
      assert t in g;
    }
  }

  /** Freeing a live group: its bits are all set, as palloc_free_multiple()
      asserts, and the record stays exact. */
  lemma FreeGroup(bits: seq<bool>, g: Groups, s: nat)
    requires GroupsOk(bits, g) && s in g
    ensures AllBits(bits, s, g[s], true)
    ensures GroupsOk(SetBits(bits, s, g[s], false), g - {s})
  {
    forall i | s <= i < s + g[s] ensures bits[i] { assert Covers(g, i); }
    forall i: nat | i < |bits| ensures Covers(g - {s}, i) <==> Covers(g, i) && !(s <= i < s + g[s]) {
      CoversFreed(bits, g, s, i);
    }
  }

  /** A pool: `base` is the address of its first page. */
  class Pool {
    const usedMap: Bitmap
    const base: nat
    ghost var groups: Groups

    ghost predicate Valid()
      reads this, usedMap.bits
    {
      && base % PGSIZE == 0 && usedMap.Valid() && GroupsOk(usedMap.Bits(), groups)
    }

    /** init_pool(), given the number of pages left after the bitmap. */
    constructor (start: nat, pageCnt: nat)
      requires start % PGSIZE == 0
      ensures Valid() && groups == map[] && base == start && usedMap.bitCnt == pageCnt
      ensures fresh(usedMap) && fresh(usedMap.bits)
    {
      usedMap := new Bitmap(pageCnt);
      base := start;
      groups := map[];
    }

    /** The addresses of the pages of this pool. */
    ghost predicate Owns(addr: nat) {
      base <= addr < base + PGSIZE * usedMap.bitCnt
    }

    /** page_from_pool() */
    predicate PageFromPool(page: nat) {
      base / PGSIZE <= page / PGSIZE < base / PGSIZE + usedMap.bitCnt
    }

    /** The index in the pool of the page at an address. */
    ghost function IndexOf(page: nat): int {
      page / PGSIZE - base / PGSIZE
    }

    /** The address of the page at an index leads back to the pool and the index. */
    method PageAt(idx: nat) returns (page: nat)
      requires base % PGSIZE == 0 && idx < usedMap.bitCnt
      ensures page == base + PGSIZE * idx
      ensures page % PGSIZE == 0 && PageFromPool(page) && IndexOf(page) == idx
    {
      page := base + PGSIZE * idx;
      AddressRoundTrip(base, idx);
    }

    /** palloc_get_multiple() on this pool, for pageCnt other than 0: the least
        free group of that many pages, or None when there is none. */
    method GetMultiple(pageCnt: nat) returns (pages: Option<nat>)
      requires Valid() && pageCnt > 0
      modifies this`groups, usedMap.bits
      ensures Valid()
      ensures pages == None ==> groups == old(groups)
      ensures pages.Some? ==>
                && pages.value % PGSIZE == 0 && PageFromPool(pages.value)
                && IndexOf(pages.value) !in old(groups)
                && groups == old(groups)[IndexOf(pages.value) := pageCnt]
      ensures FirstGroup(old(usedMap.Bits()), 0, pageCnt, false)
                == if pages.Some? && IndexOf(pages.value) >= 0 then Some(IndexOf(pages.value)) else None
    {
      var pageIdx := usedMap.ScanAndFlip(0, pageCnt, false);
      if pageIdx.Some? {
        ghost var bits := old(usedMap.Bits());
        FirstGroupIsLeast(bits, 0, pageCnt, false);
        TakeGroup(bits, groups, pageIdx.value, pageCnt);
        groups := groups[pageIdx.value := pageCnt];
        var page := PageAt(pageIdx.value);
        pages := Some(page);
      } else {
        pages := None;
      }
    }

    /** palloc_free_multiple() once the pool is known.  The assertion in it is the
        value of `all`, which is proved. */
    method FreeMultiple(pages: nat, pageCnt: nat)
      requires Valid() && pages % PGSIZE == 0 && PageFromPool(pages)
      requires IndexOf(pages) in groups && groups[IndexOf(pages)] == pageCnt
      modifies this`groups, usedMap.bits
      ensures Valid() && groups == old(groups) - {IndexOf(pages)}
    {
      var pageIdx := pages / PGSIZE - base / PGSIZE;
      FreeGroup(usedMap.Bits(), groups, pageIdx);
      var all := usedMap.All(pageIdx, pageCnt);
      assert all;
      usedMap.SetMultiple(pageIdx, pageCnt, false);
      groups := groups - {pageIdx};
    }
  }

  /** What palloc_get_multiple() gives for n pages out of a pool with these bits: the least
      free group, or nothing if there is none or n is 0. */
  ghost predicate Given(bits: seq<bool>, base: nat, n: nat, page: Option<nat>) {
    if n == 0 then page == None
    else if page == None then FirstGroup(bits, 0, n, false) == None
    else
      && page.value % PGSIZE == 0 && base / PGSIZE <= page.value / PGSIZE
      && FirstGroup(bits, 0, n, false) == Some(page.value / PGSIZE - base / PGSIZE)
  }

  /** An address handed out comes back to the same pool and the same index. */
  lemma AddressRoundTrip(base: nat, idx: nat)
    requires base % PGSIZE == 0
    ensures (base + PGSIZE * idx) % PGSIZE == 0 && (base + PGSIZE * idx) / PGSIZE == base / PGSIZE + idx
  {
  }

  lemma BasePages(b0: nat, b1: nat, cnt: nat)
    requires b0 % PGSIZE == 0 && b1 % PGSIZE == 0 && b0 + PGSIZE * cnt <= b1
    ensures b0 / PGSIZE + cnt <= b1 / PGSIZE
  {
  }

  /** DIV_ROUND_UP (bitmap_buf_size (pages), PGSIZE): a struct bitmap of 8 bytes
      followed by the words. */
  function BitmapPages(pageCnt: nat): nat {
    (8 + 4 * ElemCnt(pageCnt) + PGSIZE - 1) / PGSIZE
  }

  class Pools {
    const kernel: Pool
    const user: Pool

    ghost predicate Valid()
      reads kernel, kernel.usedMap.bits, user, user.usedMap.bits
    {
      && kernel.Valid() && user.Valid() && kernel != user
      && kernel.usedMap != user.usedMap && kernel.usedMap.bits != user.usedMap.bits
      && kernel.base + PGSIZE * kernel.usedMap.bitCnt <= user.base
    }

    /** palloc_init(), for free memory of freePages pages from freeStart.  PANIC
        is the case in which a pool cannot hold its own bitmap. */
    constructor (freeStart: nat, freePages: nat, userPageLimit: nat)
      requires freeStart % PGSIZE == 0
      requires var userPages := if freePages / 2 > userPageLimit then userPageLimit else freePages / 2;
               BitmapPages(userPages) <= userPages && BitmapPages(freePages - userPages) <= freePages - userPages
      ensures Valid() && kernel.groups == user.groups == map[]
      // the user pool gets half of the pages, up to the limit, and each pool pays for its bitmap
      ensures var userPages := Min(freePages / 2, userPageLimit);
              && user.usedMap.bitCnt == userPages - BitmapPages(userPages)
              && kernel.usedMap.bitCnt == freePages - userPages - BitmapPages(freePages - userPages)
              && kernel.base == freeStart + PGSIZE * BitmapPages(freePages - userPages)
              && user.base + PGSIZE * user.usedMap.bitCnt == freeStart + PGSIZE * freePages
      ensures forall a: nat :: kernel.Owns(a) || user.Owns(a) ==> freeStart <= a < freeStart + PGSIZE * freePages
    {
      hide BitmapPages, GroupsOk;
      var userPages := freePages / 2;
      if userPages > userPageLimit {
        userPages := userPageLimit;
      }
      var kernelPages := freePages - userPages;
      var kernelMap, userMap := BitmapPages(kernelPages), BitmapPages(userPages);
      AddressRoundTrip(freeStart, kernelMap);
      AddressRoundTrip(freeStart, kernelPages);
      AddressRoundTrip(freeStart + PGSIZE * kernelPages, userMap);
      kernel := new Pool(freeStart + PGSIZE * kernelMap, kernelPages - kernelMap);
      user := new Pool(freeStart + PGSIZE * kernelPages + PGSIZE * userMap, userPages - userMap);
    }

    /** palloc_get_multiple(): the USER flag selects the pool. */
    method GetMultiple(fromUser: bool, pageCnt: nat) returns (pages: Option<nat>)
      requires Valid()
      modifies kernel`groups, kernel.usedMap.bits, user`groups, user.usedMap.bits
      ensures Valid()
      ensures pageCnt == 0 ==> pages == None
      ensures pages == None ==> kernel.groups == old(kernel.groups) && user.groups == old(user.groups)
      ensures pages.Some? ==>
                var p := if fromUser then user else kernel; var q := if fromUser then kernel else user;
                && q.groups == old(q.groups)
                && pages.value % PGSIZE == 0 && p.PageFromPool(pages.value) && !q.PageFromPool(pages.value)
                && p.groups == old(p.groups)[p.IndexOf(pages.value) := pageCnt]
                && p.IndexOf(pages.value) !in old(p.groups)
      ensures Given(if fromUser then old(user.usedMap.Bits()) else old(kernel.usedMap.Bits()),
                    if fromUser then user.base else kernel.base, pageCnt, pages)
    {
      hide FirstGroup, GroupsOk;
      if pageCnt == 0 {
        return None;
      }
      if fromUser {
        pages := user.GetMultiple(pageCnt);
      } else {
        pages := kernel.GetMultiple(pageCnt);
      }
      if pages.Some? {
        PoolsApart(pages.value);
      }
    }

    /** No page belongs to both pools. */
    lemma PoolsApart(page: nat)
      requires Valid()
      ensures !(kernel.PageFromPool(page) && user.PageFromPool(page))
    {
      BasePages(kernel.base, user.base, kernel.usedMap.bitCnt);
    }

    /** palloc_free_multiple(): the address tells the pool. */
    method FreeMultiple(pages: nat, pageCnt: nat)
      requires Valid() && pages % PGSIZE == 0
      requires kernel.PageFromPool(pages) || user.PageFromPool(pages)
      requires var p := if kernel.PageFromPool(pages) then kernel else user;
               p.IndexOf(pages) in p.groups && p.groups[p.IndexOf(pages)] == pageCnt
      modifies kernel`groups, kernel.usedMap.bits, user`groups, user.usedMap.bits
      ensures Valid()
      ensures var p := if kernel.PageFromPool(pages) then kernel else user;
              var q := if kernel.PageFromPool(pages) then user else kernel;
              q.groups == old(q.groups) && p.groups == old(p.groups) - {p.IndexOf(pages)}
    {
      if kernel.PageFromPool(pages) {
        kernel.FreeMultiple(pages, pageCnt);
      } else {
        user.FreeMultiple(pages, pageCnt);
      }
    }
  }
}

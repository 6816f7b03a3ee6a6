/**
 threads/malloc.c: blocks of power-of-two size carved out of one-page arenas, one
 list of free blocks per size, and whole page groups for bigger requests.

 Addresses are natural numbers.  The header a block is found by (struct arena, at
 the start of its page) is an entry of `arenas`; `live` records the blocks handed
 out and not yet freed, with the size that was asked for.
 */
module Malloc {
  import opened Common
  import opened Bitmaps
  import opened PageAllocator

  /** sizeof (struct arena) */
  const ARENA_SIZE: nat := 12
  const DESC_CNT: nat := 7

  /** block_size of descriptor d */
  function BlockSize(d: nat): (size: nat)
    ensures size >= 16
  {
    if d == 0 then 16 else 2 * BlockSize(d - 1)
  }

  function Quotient(n: nat, k: nat): (q: nat)
    requires k > 0
    ensures q * k <= n
  {
    n / k
  }

  /** blocks_per_arena of descriptor d */
  function PerArena(d: nat): nat {
    Quotient(PGSIZE - ARENA_SIZE, BlockSize(d))
  }

  lemma PerArenaPositive(d: nat)
    requires d < DESC_CNT
    ensures PerArena(d) >= 3
  {
    assert BlockSize(0) == 16 && BlockSize(1) == 32 && BlockSize(2) == 64 && BlockSize(3) == 128;
    assert BlockSize(4) == 256 && BlockSize(5) == 512 && BlockSize(6) == 1024;
  }

  /** The blocks of an arena fit into its page behind the header, and one more would not. */
  lemma BlocksFillArena(d: nat)
    requires d < DESC_CNT
    ensures ARENA_SIZE + PerArena(d) * BlockSize(d) <= PGSIZE < ARENA_SIZE + (PerArena(d) + 1) * BlockSize(d)
  {
    assert BlockSize(0) == 16 && BlockSize(1) == 32 && BlockSize(2) == 64 && BlockSize(3) == 128;
    assert BlockSize(4) == 256 && BlockSize(5) == 512 && BlockSize(6) == 1024;
  }

  /** arena_to_block() */
  function ArenaToBlock(d: nat, a: nat, i: nat): nat {
    a + ARENA_SIZE + i * BlockSize(d)
  }

  /** The address pg_round_down() gives for the arena of a block. */
  function ArenaOf(b: nat): nat {
    b / PGSIZE * PGSIZE
  }

  lemma InPage(a: nat, off: nat)
    requires a % PGSIZE == 0 && off < PGSIZE
    ensures ArenaOf(a + off) == a && (a + off) % PGSIZE == off
  {
  }

  /** A multiple of k leaves no remainder. */
  lemma MultipleOf(i: nat, k: nat)
    requires k > 0
    ensures i * k % k == 0
  {
    var q, r := i * k / k, i * k % k;
    assert i * k == q * k + r;
    if q < i {
      MulMono(q, i, k);
    } else if i < q {
      MulMono(i, q, k);
    }
  }

  /** block_to_arena() undoes arena_to_block(), a block lies inside its arena's
      page, and its offset passes the alignment assertion of block_to_arena(). */
  lemma BlockInArena(d: nat, a: nat, i: nat)
    requires d < DESC_CNT && a % PGSIZE == 0 && i < PerArena(d)
    ensures var b := ArenaToBlock(d, a, i);
            && ArenaOf(b) == a && b + BlockSize(d) <= a + PGSIZE
            && b % PGSIZE >= ARENA_SIZE && (b % PGSIZE - ARENA_SIZE) % BlockSize(d) == 0
  {
    var k := BlockSize(d);
    MulMono(i, PerArena(d), k);
    MultipleOf(i, k);
    assert i * k >= 0;
    InPage(a, ARENA_SIZE + i * k);
  }

  /** Different blocks of an arena do not overlap. */
  lemma BlocksApart(d: nat, a: nat, i: nat, j: nat)
    requires i < j
    ensures ArenaToBlock(d, a, i) + BlockSize(d) <= ArenaToBlock(d, a, j)
  {
    MulMono(i, j, BlockSize(d));
  }

  /** The first n blocks of an arena, in the order malloc() puts them on a list. */
  ghost function BlockList(d: nat, a: nat, n: nat): (s: seq<nat>) {
    seq(n, i requires 0 <= i < n => ArenaToBlock(d, a, i))
  }

  lemma {:induction false} NoDupCount(s: seq<nat>)
    requires NoDup(s)
    ensures |Elements(s)| == |s|
  {
    if s != [] {
      PopFront(s);
      NoDupCount(s[1..]);
      assert Elements(s) == Elements(s[1..]) + {s[0]};
    } else {
      assert Elements(s) == {};
    }
  }

  lemma BlockListNoDup(d: nat, a: nat, n: nat)
    ensures NoDup(BlockList(d, a, n))
  {
    var s := BlockList(d, a, n);
    forall i, j | 0 <= i < j < n ensures s[i] != s[j] {
      BlocksApart(d, a, i, j);
    }
  }

  /** The blocks of an arena. */
  ghost function Blocks(d: nat, a: nat): set<nat> {
    Elements(BlockList(d, a, PerArena(d)))
  }

  lemma BlocksOfArena(d: nat, a: nat)
    requires d < DESC_CNT && a % PGSIZE == 0
    ensures |Blocks(d, a)| == PerArena(d)
    ensures forall b :: b in Blocks(d, a) ==> ArenaOf(b) == a && b + BlockSize(d) <= a + PGSIZE
  {
    var s := BlockList(d, a, PerArena(d));
    BlockListNoDup(d, a, PerArena(d));
    NoDupCount(s);
    forall b | b in Blocks(d, a) ensures ArenaOf(b) == a && b + BlockSize(d) <= a + PGSIZE {
      var i :| 0 <= i < |s| && s[i] == b;
      BlockInArena(d, a, i);
    }
  }

  // ---------------------------------------------------------------------
  // The state
  // ---------------------------------------------------------------------

  datatype Arena = Small(desc: nat, freeCnt: nat) | Big(pageCnt: nat)

  datatype Heap = Heap(free: seq<seq<nat>>, arenas: map<nat, Arena>, live: map<nat, nat>)

  function Pages(a: Arena): nat {
    if a.Big? then a.pageCnt else 1
  }

  /** The blocks of arena a on a free list. */
  ghost function FreeIn(list: seq<nat>, a: nat): set<nat> {
    set b | b in list && ArenaOf(b) == a
  }

  /** Arena a is a page of blocks of descriptor d. */
  ghost predicate IsSmall(arenas: map<nat, Arena>, a: nat, d: nat) {
    a in arenas && arenas[a].Small? && arenas[a].desc == d
  }

  ghost predicate HeadersOk(arenas: map<nat, Arena>) {
    forall a :: a in arenas ==>
      a > 0 && a % PGSIZE == 0 && Pages(arenas[a]) > 0 && (arenas[a].Small? ==> arenas[a].desc < DESC_CNT)
  }

  /** free_cnt counts the arena's blocks on the list, and is below
      blocks_per_arena for every arena but `full`. */
  ghost predicate CountOk(list: seq<nat>, d: nat, arenas: map<nat, Arena>, full: nat) {
    forall a :: IsSmall(arenas, a, d) ==>
      && arenas[a].freeCnt == |FreeIn(list, a)| <= PerArena(d)
      && (a != full ==> arenas[a].freeCnt < PerArena(d))
  }

  /** The list holds blocks of this descriptor's arenas, each once. */
  ghost predicate ListOk(list: seq<nat>, d: nat, arenas: map<nat, Arena>) {
    && NoDup(list)
    && forall b :: b in list ==> IsSmall(arenas, ArenaOf(b), d) && b in Blocks(d, ArenaOf(b))
  }

  /** Each block of an arena is free or live, not both. */
  ghost predicate PartitionOk(list: seq<nat>, d: nat, arenas: map<nat, Arena>, live: map<nat, nat>) {
    forall a, b :: IsSmall(arenas, a, d) && b in Blocks(d, a) ==> (b in list <==> b !in live)
  }

  /** A live block of the given size that lies in arena `a`. */
  ghost predicate Holds(arena: Arena, a: nat, b: nat, size: nat) {
    match arena
    case Small(d, _) => b in Blocks(d, a) && size <= BlockSize(d)
    case Big(n) => b == a + ARENA_SIZE && ARENA_SIZE + size <= n * PGSIZE
  }

  ghost predicate LiveOk(arenas: map<nat, Arena>, live: map<nat, nat>) {
    && (forall b :: b in live ==> ArenaOf(b) in arenas && Holds(arenas[ArenaOf(b)], ArenaOf(b), b, live[b]))
    && (forall a :: a in arenas && arenas[a].Big? ==> exists b :: b in live && ArenaOf(b) == a)
  }

  ghost predicate Beside(a0: nat, n0: nat, a1: nat, n1: nat) {
    a0 + n0 * PGSIZE <= a1 || a1 + n1 * PGSIZE <= a0
  }

  /** No two arenas share a page. */
  ghost predicate ArenasApart(arenas: map<nat, Arena>) {
    forall a, b :: a in arenas && b in arenas && a != b ==> Beside(a, Pages(arenas[a]), b, Pages(arenas[b]))
  }

  /** What holds of one descriptor's free list. */
  ghost predicate DescOk(list: seq<nat>, d: nat, arenas: map<nat, Arena>, live: map<nat, nat>, full: nat) {
    CountOk(list, d, arenas, full) && ListOk(list, d, arenas) && PartitionOk(list, d, arenas, live)
  }

  /** The allocator's invariant.  Inside malloc() and free() the arena `full` may be
      wholly free; between calls it is 0, the address of no arena. */
  ghost predicate InvBut(h: Heap, full: nat) {
    && |h.free| == DESC_CNT
    && HeadersOk(h.arenas) && ArenasApart(h.arenas) && LiveOk(h.arenas, h.live)
    && forall d :: 0 <= d < DESC_CNT ==> DescOk(h.free[d], d, h.arenas, h.live, full)
  }

  ghost predicate Inv(h: Heap) {
    InvBut(h, 0)
  }

  // ---------------------------------------------------------------------
  // The effect of malloc() and free()
  // ---------------------------------------------------------------------

  /** A new arena a for descriptor d, whose list was empty. */
  function AddArena(h: Heap, d: nat, a: nat): Heap
    requires d < |h.free|
  {
    h.(free := h.free[d := h.free[d] + seq(PerArena(d), i requires 0 <= i < PerArena(d) => ArenaToBlock(d, a, i))],
       arenas := h.arenas[a := Small(d, PerArena(d))])
  }

  function Recount(arenas: map<nat, Arena>, a: nat, delta: int): map<nat, Arena> {
    if a in arenas && arenas[a].Small? && arenas[a].freeCnt + delta >= 0
    then arenas[a := Small(arenas[a].desc, arenas[a].freeCnt + delta)] else arenas
  }

  /** Hand out the first block of list d. */
  function Take(h: Heap, d: nat, size: nat): Heap
    requires d < |h.free| && h.free[d] != []
  {
    var b := h.free[d][0];
    Heap(h.free[d := h.free[d][1..]], Recount(h.arenas, ArenaOf(b), -1), h.live[b := size])
  }

  /** Put block b back on list d. */
  function Push(h: Heap, d: nat, b: nat): Heap
    requires d < |h.free|
  {
    Heap(h.free[d := [b] + h.free[d]], Recount(h.arenas, ArenaOf(b), 1), h.live - {b})
  }

  /** The list without the elements of a set. */
  ghost function Excluding(list: seq<nat>, gone: set<nat>): (r: seq<nat>)
    ensures forall b :: b in r <==> b in list && b !in gone
  {
    if list == [] then []
    else if list[0] in gone then Excluding(list[1..], gone)
    else [list[0]] + Excluding(list[1..], gone)
  }

  /** Give the wholly free arena a back. */
  ghost function DropArena(h: Heap, d: nat, a: nat): Heap
    requires d < |h.free|
  {
    h.(free := h.free[d := Excluding(h.free[d], Blocks(d, a))], arenas := h.arenas - {a})
  }

  // ---------------------------------------------------------------------
  // Each effect keeps the invariant
  // ---------------------------------------------------------------------

  lemma BlockArena(d: nat, a: nat, b: nat)
    requires d < DESC_CNT && a % PGSIZE == 0 && b in Blocks(d, a)
    ensures ArenaOf(b) == a
  {
    BlocksOfArena(d, a);
  }

  /** Descriptor d has the same arenas, with the same counts. */
  ghost predicate SameArenas(d: nat, arenas: map<nat, Arena>, arenas': map<nat, Arena>) {
    forall a :: (IsSmall(arenas', a, d) <==> IsSmall(arenas, a, d))
                && (IsSmall(arenas', a, d) && IsSmall(arenas, a, d) ==> arenas'[a] == arenas[a])
  }

  /** The same blocks of descriptor d's arenas are live. */
  ghost predicate SameLive(d: nat, arenas: map<nat, Arena>, live: map<nat, nat>, live': map<nat, nat>) {
    forall a, b :: IsSmall(arenas, a, d) && b in Blocks(d, a) ==> (b in live' <==> b in live)
  }

  /** A descriptor whose arenas and blocks are not touched stays correct. */
  lemma OtherDesc(list: seq<nat>, d: nat, arenas: map<nat, Arena>, arenas': map<nat, Arena>,
                  live: map<nat, nat>, live': map<nat, nat>, full: nat, full': nat)
    requires DescOk(list, d, arenas, live, full) && !IsSmall(arenas, full, d)
    requires SameArenas(d, arenas, arenas') && SameLive(d, arenas, live, live')
    ensures DescOk(list, d, arenas', live', full')
  {
  }

  /** A change to the live set that only concerns one block of another descriptor. */
  lemma OtherLive(d: nat, arenas: map<nat, Arena>, live: map<nat, nat>, live': map<nat, nat>, x: nat)
    requires d < DESC_CNT && HeadersOk(arenas) && !IsSmall(arenas, ArenaOf(x), d)
    requires forall b :: b != x ==> (b in live' <==> b in live)
    ensures SameLive(d, arenas, live, live')
  {
    forall a, b | IsSmall(arenas, a, d) && b in Blocks(d, a) ensures b in live' <==> b in live {
      BlockArena(d, a, b);
    }
  }

  /** An effect on one block of descriptor d leaves the other descriptors correct. */
  lemma OtherDescs(h: Heap, h': Heap, d: nat, x: nat, full: nat, full': nat)
    requires InvBut(h, full) && |h'.free| == DESC_CNT
    requires forall e :: 0 <= e < DESC_CNT && e != d ==> h.free[e] == h'.free[e]
    requires forall e: nat :: e != d ==> SameArenas(e, h.arenas, h'.arenas)
    requires forall b :: b != x ==> (b in h'.live <==> b in h.live)
    requires forall e :: 0 <= e < DESC_CNT && e != d ==>
               !IsSmall(h.arenas, full, e)
                   && (SameLive(e, h.arenas, h.live, h'.live) || !IsSmall(h.arenas, ArenaOf(x), e))
    ensures forall e :: 0 <= e < DESC_CNT && e != d ==> DescOk(h'.free[e], e, h'.arenas, h'.live, full')
  {
    forall e | 0 <= e < DESC_CNT && e != d ensures DescOk(h'.free[e], e, h'.arenas, h'.live, full') {
      if !IsSmall(h.arenas, ArenaOf(x), e) {
        OtherLive(e, h.arenas, h.live, h'.live, x);
      }
      OtherDesc(h.free[e], e, h.arenas, h'.arenas, h.live, h'.live, full, full');
    }
  }

  lemma FreeInPop(list: seq<nat>, a: nat)
    requires NoDup(list) && list != []
    ensures FreeIn(list[1..], a) == FreeIn(list, a) - {list[0]}
    ensures list[0] in FreeIn(list, a) <==> ArenaOf(list[0]) == a
  {
    PopFront(list);
  }

  lemma TakeCount(list: seq<nat>, d: nat, arenas: map<nat, Arena>, full: nat)
    requires CountOk(list, d, arenas, full) && ListOk(list, d, arenas) && list != []
    requires full == 0 || full == ArenaOf(list[0])
    requires HeadersOk(arenas)
    ensures arenas[ArenaOf(list[0])].freeCnt > 0
    ensures CountOk(list[1..], d, Recount(arenas, ArenaOf(list[0]), -1), 0)
  {
    hide FreeIn, Blocks, PerArena;
    var b, a := list[0], ArenaOf(list[0]);
    var arenas', list' := Recount(arenas, a, -1), list[1..];
    assert b in list;
    FreeInPop(list, a);
    assert |FreeIn(list, a) - {b}| == |FreeIn(list, a)| - 1;
    forall a' | IsSmall(arenas', a', d)
      ensures arenas'[a'].freeCnt == |FreeIn(list', a')| < PerArena(d)
    {
      FreeInPop(list, a');
      if a' != a {
        assert FreeIn(list', a') == FreeIn(list, a');
      }
    }
  }

  lemma TakePartition(list: seq<nat>, d: nat, arenas: map<nat, Arena>, live: map<nat, nat>, size: nat)
    requires ListOk(list, d, arenas) && PartitionOk(list, d, arenas, live) && list != []
    ensures var arenas' := Recount(arenas, ArenaOf(list[0]), -1);
            ListOk(list[1..], d, arenas') && PartitionOk(list[1..], d, arenas', live[list[0] := size])
  {
    hide Blocks;
    var b, a := list[0], ArenaOf(list[0]);
    var arenas', list', live' := Recount(arenas, a, -1), list[1..], live[b := size];
    PopFront(list);
    assert b in list;
    forall a', b' | IsSmall(arenas', a', d) && b' in Blocks(d, a') ensures b' in list' <==> b' !in live' {
      assert IsSmall(arenas, a', d);
    }
  }

  lemma TakeDesc(list: seq<nat>, d: nat, arenas: map<nat, Arena>, live: map<nat, nat>, full: nat, size: nat)
    requires DescOk(list, d, arenas, live, full) && list != []
    requires full == 0 || full == ArenaOf(list[0])
    requires HeadersOk(arenas)
    ensures arenas[ArenaOf(list[0])].freeCnt > 0
    ensures DescOk(list[1..], d, Recount(arenas, ArenaOf(list[0]), -1), live[list[0] := size], 0)
  {
    hide CountOk, ListOk, PartitionOk, HeadersOk;
    TakeCount(list, d, arenas, full);
    TakePartition(list, d, arenas, live, size);
  }

  /** Changing a count changes no other property of the arenas. */
  ghost predicate SameButCount(arenas: map<nat, Arena>, arenas': map<nat, Arena>) {
    && arenas'.Keys == arenas.Keys
    && forall x :: x in arenas ==>
         && (arenas'[x].Big? <==> arenas[x].Big?)
         && (arenas[x].Small? ==> arenas'[x].desc == arenas[x].desc)
         && (arenas[x].Big? ==> arenas'[x] == arenas[x])
  }

  lemma RecountKeeps(d: nat, arenas: map<nat, Arena>, a: nat, delta: int)
    requires IsSmall(arenas, a, d)
    ensures SameButCount(arenas, Recount(arenas, a, delta))
    ensures forall e: nat :: e != d ==> SameArenas(e, arenas, Recount(arenas, a, delta))
  {
  }

  lemma ArenasKept(arenas: map<nat, Arena>, arenas': map<nat, Arena>)
    requires HeadersOk(arenas) && ArenasApart(arenas) && SameButCount(arenas, arenas')
    ensures HeadersOk(arenas') && ArenasApart(arenas')
  {
    forall a, b | a in arenas' && b in arenas' && a != b ensures Beside(a, Pages(arenas'[a]), b, Pages(arenas'[b])) {
      assert Beside(a, Pages(arenas[a]), b, Pages(arenas[b]));
    }
  }

  lemma LiveTaken(arenas: map<nat, Arena>, arenas': map<nat, Arena>, live: map<nat, nat>, b: nat, d: nat, size: nat)
    requires SameButCount(arenas, arenas') && LiveOk(arenas, live)
    requires IsSmall(arenas, ArenaOf(b), d) && b in Blocks(d, ArenaOf(b)) && size <= BlockSize(d)
    ensures LiveOk(arenas', live[b := size])
  {
    var live' := live[b := size];
    forall x | x in live' ensures ArenaOf(x) in arenas' && Holds(arenas'[ArenaOf(x)], ArenaOf(x), x, live'[x]) {
      assert x == b || x in live;
    }
    forall a | a in arenas' && arenas'[a].Big? ensures exists c :: c in live' && ArenaOf(c) == a {
      var c :| c in live && ArenaOf(c) == a;
      assert c in live';
    }
  }

  lemma LiveReturned(arenas: map<nat, Arena>, arenas': map<nat, Arena>, live: map<nat, nat>, b: nat, d: nat)
    requires SameButCount(arenas, arenas') && LiveOk(arenas, live) && IsSmall(arenas, ArenaOf(b), d)
    ensures LiveOk(arenas', live - {b})
  {
    forall a | a in arenas' && arenas'[a].Big? ensures exists c :: c in live - {b} && ArenaOf(c) == a {
      var c :| c in live && ArenaOf(c) == a;
      assert c in live - {b};
    }
  }

  lemma TakeKeepsInv(h: Heap, d: nat, full: nat, size: nat)
    requires InvBut(h, full) && d < DESC_CNT && h.free[d] != [] && size <= BlockSize(d)
    requires full == 0 || full == ArenaOf(h.free[d][0])
    ensures Inv(Take(h, d, size))
    ensures h.free[d][0] !in h.live
  {
    var h', b, a := Take(h, d, size), h.free[d][0], ArenaOf(h.free[d][0]);
    assert DescOk(h.free[d], d, h.arenas, h.live, full);
    assert b in h.free[d];
    TakeDesc(h.free[d], d, h.arenas, h.live, full, size);
    RecountKeeps(d, h.arenas, a, -1);
    ArenasKept(h.arenas, h'.arenas);
    LiveTaken(h.arenas, h'.arenas, h.live, b, d, size);
    OtherDescs(h, h', d, b, full, 0);
  }

  lemma PushDesc(list: seq<nat>, d: nat, arenas: map<nat, Arena>, live: map<nat, nat>, b: nat)
    requires DescOk(list, d, arenas, live, 0) && HeadersOk(arenas)
    requires IsSmall(arenas, ArenaOf(b), d) && b in Blocks(d, ArenaOf(b)) && b in live
    ensures DescOk([b] + list, d, Recount(arenas, ArenaOf(b), 1), live - {b}, ArenaOf(b))
  {
    var a := ArenaOf(b);
    var arenas', list', live' := Recount(arenas, a, 1), [b] + list, live - {b};
    assert b !in list;
    assert list'[1..] == list;
    assert NoDup(list');
    FreeInPop(list', a);
    assert FreeIn(list', a) == FreeIn(list, a) + {b};
    assert |FreeIn(list', a)| == |FreeIn(list, a)| + 1;
    forall a' | IsSmall(arenas', a', d)
      ensures arenas'[a'].freeCnt == |FreeIn(list', a')| <= PerArena(d)
      ensures a' != a ==> arenas'[a'].freeCnt < PerArena(d)
    {
      assert IsSmall(arenas, a', d);
      if a' != a {
        FreeInPop(list', a');
        assert FreeIn(list', a') == FreeIn(list, a');
      }
    }
    forall a', b' | IsSmall(arenas', a', d) && b' in Blocks(d, a') ensures b' in list' <==> b' !in live' {
      assert IsSmall(arenas, a', d);
    }
    forall b' | b' in list' ensures IsSmall(arenas', ArenaOf(b'), d) && b' in Blocks(d, ArenaOf(b')) {
      assert b' == b || b' in list;
    }
  }

  lemma PushKeepsInv(h: Heap, d: nat, b: nat)
    requires Inv(h) && d < DESC_CNT && b in h.live && IsSmall(h.arenas, ArenaOf(b), d)
    ensures InvBut(Push(h, d, b), ArenaOf(b))
  {
    var h', a := Push(h, d, b), ArenaOf(b);
    assert DescOk(h.free[d], d, h.arenas, h.live, 0);
    PushDesc(h.free[d], d, h.arenas, h.live, b);
    RecountKeeps(d, h.arenas, a, 1);
    ArenasKept(h.arenas, h'.arenas);
    LiveReturned(h.arenas, h'.arenas, h.live, b, d);
    OtherDescs(h, h', d, b, 0, a);
  }

  /** n pages from address a that no arena uses. */
  ghost predicate FreshPages(arenas: map<nat, Arena>, a: nat, n: nat) {
    && a > 0 && a % PGSIZE == 0 && n > 0
    && forall x :: x in arenas ==> Beside(a, n, x, Pages(arenas[x]))
  }

  lemma FreshNotArena(arenas: map<nat, Arena>, a: nat, n: nat)
    requires HeadersOk(arenas) && FreshPages(arenas, a, n)
    ensures a !in arenas
  {
    assert a in arenas ==> Beside(a, n, a, Pages(arenas[a]));
  }

  lemma ArenaAdded(arenas: map<nat, Arena>, a: nat, arena: Arena)
    requires HeadersOk(arenas) && ArenasApart(arenas) && FreshPages(arenas, a, Pages(arena))
    requires arena.Small? ==> arena.desc < DESC_CNT
    ensures a !in arenas && HeadersOk(arenas[a := arena]) && ArenasApart(arenas[a := arena])
  {
    FreshNotArena(arenas, a, Pages(arena));
    var arenas' := arenas[a := arena];
    forall x, y | x in arenas' && y in arenas' && x != y ensures Beside(x, Pages(arenas'[x]), y, Pages(arenas'[y])) {
      assert x != a ==> Beside(a, Pages(arena), x, Pages(arenas[x]));
      assert y != a ==> Beside(a, Pages(arena), y, Pages(arenas[y]));
    }
  }

  lemma NewArenaDesc(d: nat, arenas: map<nat, Arena>, live: map<nat, nat>, a: nat)
    requires d < DESC_CNT && DescOk([], d, arenas, live, 0) && HeadersOk(arenas) && LiveOk(arenas, live)
    requires a !in arenas && a % PGSIZE == 0
    ensures DescOk(BlockList(d, a, PerArena(d)), d, arenas[a := Small(d, PerArena(d))], live, a)
  {
    var list, arenas' := BlockList(d, a, PerArena(d)), arenas[a := Small(d, PerArena(d))];
    BlocksOfArena(d, a);
    BlockListNoDup(d, a, PerArena(d));
    forall b | b in list ensures b in Blocks(d, a) && ArenaOf(b) == a {}
    forall x | IsSmall(arenas', x, d)
      ensures arenas'[x].freeCnt == |FreeIn(list, x)| <= PerArena(d)
      ensures x != a ==> arenas'[x].freeCnt < PerArena(d)
    {
      if x == a {
        assert FreeIn(list, a) == Blocks(d, a);
      } else {
        assert IsSmall(arenas, x, d);
        assert FreeIn(list, x) == {} == FreeIn([], x);
      }
    }
    forall x, b | IsSmall(arenas', x, d) && b in Blocks(d, x) ensures b in list <==> b !in live {
      if x == a {
        assert ArenaOf(b) == a;
      } else {
        assert IsSmall(arenas, x, d);
        BlockArena(d, x, b);
      }
    }
  }

  lemma AddArenaKeepsInv(h: Heap, d: nat, a: nat)
    requires Inv(h) && d < DESC_CNT && h.free[d] == [] && FreshPages(h.arenas, a, 1)
    ensures InvBut(AddArena(h, d, a), a)
    ensures h.free[d] == [] && AddArena(h, d, a).free[d] == BlockList(d, a, PerArena(d))
    ensures PerArena(d) > 0 ==> AddArena(h, d, a).free[d] != [] && ArenaOf(AddArena(h, d, a).free[d][0]) == a
  {
    var h' := AddArena(h, d, a);
    var n := PerArena(d);
    assert h'.free[d] == BlockList(d, a, n);
    ArenaAdded(h.arenas, a, Small(d, n));
    assert DescOk(h.free[d], d, h.arenas, h.live, 0);
    NewArenaDesc(d, h.arenas, h.live, a);
    OtherDescs(h, h', d, 0, 0, a);
    if n > 0 {
      BlockInArena(d, a, 0);
    }
  }

  lemma SubsetOfSameSize<T>(s: set<T>, t: set<T>)
    requires s <= t && |s| == |t|
    ensures s == t
  {
    assert |t - s| == 0;
  }

  /** A wholly free arena has all its blocks on the list. */
  lemma WhollyFree(list: seq<nat>, d: nat, arenas: map<nat, Arena>, live: map<nat, nat>, full: nat, a: nat)
    requires d < DESC_CNT && HeadersOk(arenas) && DescOk(list, d, arenas, live, full)
    requires IsSmall(arenas, a, d) && arenas[a].freeCnt == PerArena(d)
    ensures forall b :: b in Blocks(d, a) ==> b in list && b !in live
  {
    BlocksOfArena(d, a);
    SubsetOfSameSize(FreeIn(list, a), Blocks(d, a));
  }

  lemma {:induction false} ExcludingNoDup(list: seq<nat>, gone: set<nat>)
    requires NoDup(list)
    ensures NoDup(Excluding(list, gone))
  {
    if list != [] {
      ExcludingNoDup(list[1..], gone);
    }
  }

  lemma DroppedDesc(list: seq<nat>, d: nat, arenas: map<nat, Arena>, live: map<nat, nat>, a: nat)
    requires d < DESC_CNT && HeadersOk(arenas) && DescOk(list, d, arenas, live, a) && IsSmall(arenas, a, d)
    ensures DescOk(Excluding(list, Blocks(d, a)), d, arenas - {a}, live, 0)
  {
    var list', arenas' := Excluding(list, Blocks(d, a)), arenas - {a};
    BlocksOfArena(d, a);
    ExcludingNoDup(list, Blocks(d, a));
    forall x | IsSmall(arenas', x, d) ensures arenas'[x].freeCnt == |FreeIn(list', x)| < PerArena(d) {
      assert IsSmall(arenas, x, d);
      assert FreeIn(list', x) == FreeIn(list, x);
    }
    forall x, b | IsSmall(arenas', x, d) && b in Blocks(d, x) ensures b in list' <==> b !in live {
      assert IsSmall(arenas, x, d);
      BlockArena(d, x, b);
    }
  }

  lemma ArenaDropped(arenas: map<nat, Arena>, live: map<nat, nat>, a: nat, live': map<nat, nat>)
    requires HeadersOk(arenas) && ArenasApart(arenas) && LiveOk(arenas, live)
    requires forall b :: b in live' <==> b in live && ArenaOf(b) != a
    requires forall b :: b in live' ==> live'[b] == live[b]
    ensures HeadersOk(arenas - {a}) && ArenasApart(arenas - {a}) && LiveOk(arenas - {a}, live')
  {
    var arenas' := arenas - {a};
    forall x | x in arenas' && arenas'[x].Big? ensures exists c :: c in live' && ArenaOf(c) == x {
      var c :| c in live && ArenaOf(c) == x;
      assert c in live';
    }
    forall x, y | x in arenas' && y in arenas' && x != y ensures Beside(x, Pages(arenas'[x]), y, Pages(arenas'[y])) {
      assert Beside(x, Pages(arenas[x]), y, Pages(arenas[y]));
    }
  }

  lemma DropArenaKeepsInv(h: Heap, d: nat, a: nat)
    requires d < DESC_CNT && InvBut(h, a) && IsSmall(h.arenas, a, d) && h.arenas[a].freeCnt == PerArena(d)
    ensures Inv(DropArena(h, d, a))
  {
    var h' := DropArena(h, d, a);
    assert DescOk(h.free[d], d, h.arenas, h.live, a);
    WhollyFree(h.free[d], d, h.arenas, h.live, a, a);
    forall b | b in h.live ensures ArenaOf(b) != a {
      assert Holds(h.arenas[ArenaOf(b)], ArenaOf(b), b, h.live[b]);
    }
    ArenaDropped(h.arenas, h.live, a, h.live);
    DroppedDesc(h.free[d], d, h.arenas, h.live, a);
    OtherDescs(h, h', d, 0, a, 0);
  }

  // ---------------------------------------------------------------------
  // malloc() and free()
  // ---------------------------------------------------------------------

  /** The first descriptor from d on whose blocks are big enough, or DESC_CNT. */
  function DescFor(size: nat, d: nat): (r: nat)
    requires d <= DESC_CNT
    ensures d <= r <= DESC_CNT && (r < DESC_CNT ==> size <= BlockSize(r))
    ensures forall e :: d <= e < r ==> BlockSize(e) < size
    decreases DESC_CNT - d
  {
    if d == DESC_CNT || BlockSize(d) >= size then d else DescFor(size, d + 1)
  }

  /** DIV_ROUND_UP (size + sizeof (struct arena), PGSIZE) in 32 bits. */
  function BigPages(size: nat): nat {
    ((size + ARENA_SIZE) % WORD + PGSIZE - 1) % WORD / PGSIZE
  }

  /** The page count wraps to 0, which palloc refuses, or is big enough, except for
      the 11 largest sizes, for which one page is taken. */
  lemma BigPagesEnough(size: nat)
    requires 0 < size < WORD
    ensures BigPages(size) == 0 || ARENA_SIZE + size <= BigPages(size) * PGSIZE <==> size + ARENA_SIZE <= WORD
  {
    if size + ARENA_SIZE > WORD {
      assert (size + ARENA_SIZE) % WORD == size + ARENA_SIZE - WORD;
    } else if size + ARENA_SIZE < WORD {
      assert (size + ARENA_SIZE) % WORD == size + ARENA_SIZE;
    }
  }

  /** It is the least that is big enough, or wraps to 0, which happens for the pages at the end
      of the address space. */
  lemma BigPagesLeast(size: nat)
    requires 0 < size && size + ARENA_SIZE <= WORD
    ensures BigPages(size) == 0 <==> size + ARENA_SIZE > WORD - PGSIZE
    ensures BigPages(size) > 0 ==> (BigPages(size) - 1) * PGSIZE < size + ARENA_SIZE <= BigPages(size) * PGSIZE
  {
    if size + ARENA_SIZE < WORD {
      assert (size + ARENA_SIZE) % WORD == size + ARENA_SIZE;
    }
  }

  /** Of those the largest: one page for 4 GB less one byte. */
  lemma BigPagesWrap()
    ensures BigPages(WORD - 1) == 1
  {
  }

  /** a * b in 32 bits. */
  function Product(a: nat, b: nat): (r: nat)
    ensures r < WORD && (r == a * b <==> a * b < WORD)
  {
    a * b % WORD
  }

  /** The size calloc() hands to malloc(), or None if its overflow test gives up. */
  function CallocSize(a: nat, b: nat): Option<nat> {
    var size := Product(a, b);
    if size < a || size < b then None else Some(size)
  }

  /** calloc() asks for the product exactly when it fits and is not smaller than a
      factor (a product of 0 and a positive number is refused). */
  lemma CallocExact(a: nat, b: nat)
    requires a < WORD && b < WORD
    ensures CallocSize(a, b) == Some(a * b) <==> a * b < WORD && a <= a * b && b <= a * b
  {
  }

  /** The overflow test lets no wrong size through: calloc() gives up or asks for
      the product. */
  predicate CallocHonest(a: nat, b: nat) {
    CallocSize(a, b) == None || CallocSize(a, b) == Some(a * b)
  }

  /** The test is wrong for the products that do not fit and whose lower 32 bits
      are nevertheless no smaller than either factor... */
  lemma CallocTest(a: nat, b: nat)
    requires a < WORD && b < WORD
    ensures CallocHonest(a, b) <==> a * b < WORD || Product(a, b) < a || Product(a, b) < b
  {
  }

  /** ...as for 65537 elements of 65537 bytes: calloc() returns 131073 bytes... */
  lemma CallocWraps()
    ensures CallocSize(0x10001, 0x10001) == Some(0x20001) && !CallocHonest(0x10001, 0x10001)
  {
  }

  /** ...so for almost every count there is a size of the elements for which the test is
      wrong: for none only if the count is at most 2, or the largest number there is. */
  lemma CallocCounts(a: nat)
    requires a < WORD
    ensures (forall b :: 0 <= b < WORD ==> CallocHonest(a, b)) <==> a <= 2 || a == WORD - 1
  {
    if a <= 2 || a == WORD - 1 {
      forall b | 0 <= b < WORD ensures CallocHonest(a, b) {
        if a <= 2 { CallocDouble(a, b); } else { CallocLargest(b); }
      }
    } else {
      var b := CallocVictim(a);
      assert !CallocHonest(a, b);
    }
  }

  /** The product wraps around and the test does not notice. */
  predicate Unnoticed(a: nat, b: nat) {
    b < WORD && a * b >= WORD && Product(a, b) >= a && Product(a, b) >= b
  }

  /** A size for which that happens to the count a. */
  lemma CallocVictim(a: nat) returns (b: nat)
    requires 3 <= a < WORD - 1
    ensures Unnoticed(a, b)
  {
    hide Unnoticed;
    if a <= 0x1_0000 {
      b := (WORD + a - 2) / (a - 1);
      CallocFew(a, b);
    } else if a <= WORD / 2 {
      b := (WORD + a - 1) / a + 1;
      CallocSome(a, b);
    } else {
      b := WORD / (WORD - a) + 1;
      CallocMany(a, b);
    }
  }

  lemma CallocDouble(a: nat, b: nat)
    requires a <= 2 && b < WORD
    ensures CallocHonest(a, b)
  {
    if a == 2 && 2 * b >= WORD {
      assert a * b % WORD == 2 * b - WORD;
    } else {
      assert a * b < WORD;
    }
  }

  /** (2^32 - 1) * b wraps around to 2^32 - b. */
  lemma CallocLargest(b: nat)
    requires b < WORD
    ensures CallocHonest(WORD - 1, b)
  {
    if b >= 2 {
      WrapsTo((WORD - 1) * b, b - 1, WORD - b);
    } else {
      assert (WORD - 1) * b < WORD;
    }
  }

  lemma WrapsTo(n: nat, q: nat, r: nat)
    requires n == WORD * q + r && r < WORD
    ensures n % WORD == r
  {
  }

  lemma TimesNext(a: nat, b: nat)
    requires b > 0
    ensures a * b == a * (b - 1) + a
  {
  }

  /** When a product t of a and b is known to lie between 2^32 and 2^33. */
  lemma WrapsOnce(a: nat, b: nat, t: nat)
    requires t == a * b && WORD <= t < 2 * WORD && a <= t - WORD && b <= t - WORD
    ensures Unnoticed(a, b)
  {
    WrapsTo(t, 1, t - WORD);
  }

  /** The least b with (a - 1) * b >= 2^32. */
  lemma CallocFew(a: nat, b: nat)
    requires 3 <= a <= 0x1_0000 && b == (WORD + a - 2) / (a - 1)
    ensures Unnoticed(a, b)
  {
    hide Unnoticed;
    var m := a - 1;
    Ceiling(WORD, m, b);
    assert a * b == m * b + b;
    MulLeIf(m, b, 0xFFFF, 0xFFFF);
    MulLeIf(2, b, m, b);
    WrapsOnce(a, b, a * b);
  }

  /** One more than the least b with a * b >= 2^32. */
  lemma CallocSome(a: nat, b: nat)
    requires 0x1_0000 < a <= WORD / 2 && b == (WORD + a - 1) / a + 1
    ensures Unnoticed(a, b)
  {
    hide Unnoticed;
    Ceiling(WORD, a, b - 1);
    TimesNext(a, b);
    MulLeIf(0x1_0001, 0x1_0001, a, b - 1);
    WrapsOnce(a, b, a * b);
  }

  /** With c = 2^32 - a, the least b with c * b > 2^32. */
  lemma CallocMany(a: nat, b: nat)
    requires WORD / 2 < a < WORD - 1 && b == WORD / (WORD - a) + 1
    ensures Unnoticed(a, b)
  {
    var c := WORD - a;
    QuotientNext(WORD, c, b);
    Complement(a, c, b);
    MulLeIf(c, b, WORD / 2 - 1, 2);
    TimesNext(c, b);
    MulLeIf(2, b - 1, c, b - 1);
    ManyWraps(a, b, b - 2, 2 * WORD - c * b);
  }

  lemma QuotientNext(w: nat, m: nat, b: nat)
    requires m > 0 && b == w / m + 1
    ensures w < m * b <= w + m
  {
  }

  lemma Complement(a: nat, c: nat, b: nat)
    requires a + c == WORD
    ensures a * b == WORD * b - c * b
  {
  }

  lemma ManyWraps(a: nat, b: nat, q: nat, r: nat)
    requires a * b == WORD * q + r && 0 < q && a <= r < WORD && b <= r
    ensures Unnoticed(a, b)
  {
    WrapsTo(a * b, q, r);
  }

  lemma Ceiling(w: nat, m: nat, b: nat)
    requires m > 0 && b == (w + m - 1) / m
    ensures w <= m * b < w + m
  {
  }

  lemma MulLeIf(x: nat, y: nat, u: nat, v: nat)
    ensures x <= u && y <= v ==> x * y <= u * v
  {
    if x <= u && y <= v { MulLeBoth(x, y, u, v); }
  }

  lemma MulLeBoth(x: nat, y: nat, u: nat, v: nat)
    requires x <= u && y <= v
    ensures x * y <= u * v
  {
    assert x * y <= u * y by { assert (u - x) * y >= 0; }
    assert u * y <= u * v by { assert u * (v - y) >= 0; }
  }

  /** The pages malloc() asks palloc for, 0 if it does not. */
  function PagesWanted(h: Heap, size: nat): nat
    requires |h.free| == DESC_CNT
  {
    var d := DescFor(size, 0);
    if size == 0 then 0
    else if d == DESC_CNT then BigPages(size)
    else if h.free[d] == [] then 1 else 0
  }

  /** malloc(), given what palloc_get_multiple() returned. */
  function MallocStep(h: Heap, size: nat, page: Option<nat>): (Heap, Option<nat>)
    requires |h.free| == DESC_CNT
  {
    var d := DescFor(size, 0);
    if size == 0 then (h, None)
    else if d == DESC_CNT then
      if page == None then (h, None)
      else
        var b := page.value + ARENA_SIZE;
        (h.(arenas := h.arenas[page.value := Big(BigPages(size))], live := h.live[b := size]), Some(b))
    else if h.free[d] == [] && page == None then (h, None)
    else
      PerArenaPositive(d);
      var h1 := if h.free[d] == [] then AddArena(h, d, page.value) else h;
      (Take(h1, d, size), Some(h1.free[d][0]))
  }

  ghost predicate PageOk(h: Heap, size: nat, page: Option<nat>)
    requires |h.free| == DESC_CNT
  {
    page.Some? ==> FreshPages(h.arenas, page.value, PagesWanted(h, size))
  }

  lemma LiveBig(arenas: map<nat, Arena>, live: map<nat, nat>, a: nat, size: nat)
    requires LiveOk(arenas, live) && a !in arenas && a % PGSIZE == 0
    requires 0 < size && size + ARENA_SIZE <= WORD && BigPages(size) > 0
    ensures LiveOk(arenas[a := Big(BigPages(size))], live[a + ARENA_SIZE := size])
    ensures a + ARENA_SIZE !in live
  {
    InPage(a, ARENA_SIZE);
    BigPagesEnough(size);
    var arenas', live', b := arenas[a := Big(BigPages(size))], live[a + ARENA_SIZE := size], a + ARENA_SIZE;
    assert b in live' && ArenaOf(b) == a;
    forall x | x in arenas' && x != a && arenas'[x].Big? ensures exists c :: c in live' && ArenaOf(c) == x {
      var c :| c in live && ArenaOf(c) == x;
      assert c in live';
    }
  }

  lemma BigSame(arenas: map<nat, Arena>, a: nat, big: Arena, arenas': map<nat, Arena>)
    requires a !in arenas && big.Big? && arenas' == arenas[a := big]
    ensures forall e: nat :: SameArenas(e, arenas, arenas')
    ensures forall e: nat :: SameArenas(e, arenas', arenas)
  {
  }

  lemma NewBigKeepsInv(h: Heap, a: nat, size: nat)
    requires Inv(h) && 0 < size && size + ARENA_SIZE <= WORD && FreshPages(h.arenas, a, BigPages(size))
    ensures Inv(h.(arenas := h.arenas[a := Big(BigPages(size))], live := h.live[a + ARENA_SIZE := size]))
    ensures a + ARENA_SIZE !in h.live
  {
    var b, big := a + ARENA_SIZE, Big(BigPages(size));
    var h' := h.(arenas := h.arenas[a := big], live := h.live[b := size]);
    ArenaAdded(h.arenas, a, big);
    InPage(a, ARENA_SIZE);
    LiveBig(h.arenas, h.live, a, size);
    BigSame(h.arenas, a, big, h'.arenas);
    assert forall e :: 0 <= e < DESC_CNT ==> !IsSmall(h.arenas, 0, e) && !IsSmall(h.arenas, a, e);
    OtherDescs(h, h', DESC_CNT, b, 0, 0);
  }

  lemma FreeBigKeepsInv(h: Heap, b: nat)
    requires Inv(h) && b in h.live && h.arenas[ArenaOf(b)].Big?
    ensures Inv(h.(arenas := h.arenas - {ArenaOf(b)}, live := h.live - {b}))
  {
    var a := ArenaOf(b);
    var h' := h.(arenas := h.arenas - {a}, live := h.live - {b});
    OnlyBlock(h.arenas, h.live, b);
    ArenaDropped(h.arenas, h.live, a, h'.live);
    assert h.arenas == h'.arenas[a := h.arenas[a]];
    BigSame(h'.arenas, a, h.arenas[a], h.arenas);
    assert forall e :: 0 <= e < DESC_CNT ==> !IsSmall(h.arenas, 0, e) && !IsSmall(h.arenas, a, e);
    OtherDescs(h, h', DESC_CNT, b, 0, 0);
  }

  /** A big arena has one block. */
  lemma OnlyBlock(arenas: map<nat, Arena>, live: map<nat, nat>, b: nat)
    requires LiveOk(arenas, live) && b in live && arenas[ArenaOf(b)].Big?
    ensures forall x :: x in live && ArenaOf(x) == ArenaOf(b) ==> x == b
  {
    forall x | x in live && ArenaOf(x) == ArenaOf(b) ensures x == b {
      assert Holds(arenas[ArenaOf(x)], ArenaOf(x), x, live[x]);
      assert Holds(arenas[ArenaOf(b)], ArenaOf(b), b, live[b]);
    }
  }

  /** malloc() keeps the invariant, and the block it hands out was not live. */
  lemma MallocKeepsInv(h: Heap, size: nat, page: Option<nat>)
    requires Inv(h) && size + ARENA_SIZE <= WORD && PageOk(h, size, page)
    ensures Inv(MallocStep(h, size, page).0)
    ensures var (h', b) := MallocStep(h, size, page);
            if b == None then h' == h else b.value !in h.live && h'.live == h.live[b.value := size]
  {
    var d := DescFor(size, 0);
    if size == 0 {
    } else if d == DESC_CNT {
      if page.Some? {
        assert FreshPages(h.arenas, page.value, BigPages(size));
        NewBigKeepsInv(h, page.value, size);
      }
    } else if h.free[d] != [] {
      TakeKeepsInv(h, d, 0, size);
    } else if page.Some? {
      TakeFromNew(h, d, page.value, size);
    }
  }

  lemma TakeFromNew(h: Heap, d: nat, a: nat, size: nat)
    requires Inv(h) && d < DESC_CNT && size <= BlockSize(d) && h.free[d] == [] && FreshPages(h.arenas, a, 1)
    ensures var h1 := AddArena(h, d, a);
            && h1.free[d] != [] && h1.live == h.live && h1.free[d][0] !in h.live && Inv(Take(h1, d, size))
  {
    PerArenaPositive(d);
    AddArenaKeepsInv(h, d, a);
    TakeKeepsInv(AddArena(h, d, a), d, a, size);
  }

  lemma FirstIsSmall(h: Heap, d: nat)
    requires Inv(h) && d < DESC_CNT && h.free[d] != []
    ensures IsSmall(h.arenas, ArenaOf(h.free[d][0]), d)
  {
    assert DescOk(h.free[d], d, h.arenas, h.live, 0);
    assert h.free[d][0] in h.free[d];
  }

  lemma FirstOfDesc(h: Heap, d: nat)
    requires Inv(h) && d <= DESC_CNT
    ensures d < DESC_CNT && h.free[d] != [] ==> IsSmall(h.arenas, ArenaOf(h.free[d][0]), d)
  {
    if d < DESC_CNT && h.free[d] != [] {
      FirstIsSmall(h, d);
    }
  }

  lemma NewFirst(h: Heap, d: nat, a: nat)
    requires d < DESC_CNT == |h.free| && h.free[d] == [] && a % PGSIZE == 0
    ensures var h1 := AddArena(h, d, a); h1.free[d] != [] && IsSmall(h1.arenas, ArenaOf(h1.free[d][0]), d)
  {
    PerArenaPositive(d);
    NewList(h, d, a);
    BlockInArena(d, a, 0);
  }

  lemma NewList(h: Heap, d: nat, a: nat)
    requires d < |h.free| && h.free[d] == []
    ensures AddArena(h, d, a).free == h.free[d := BlockList(d, a, PerArena(d))]
  {
    assert AddArena(h, d, a).free[d] == BlockList(d, a, PerArena(d));
  }

  /** malloc() returns a null pointer only for size 0, or when palloc had no pages to
      give it, a wrapped page count of 0 included. */
  lemma MallocFails(h: Heap, size: nat, page: Option<nat>)
    requires |h.free| == DESC_CNT
    ensures MallocStep(h, size, page).1 == None <==>
            size == 0 || (page == None && (PagesWanted(h, size) > 0 || DescFor(size, 0) == DESC_CNT))
  {
  }

  /** Neither a block on the list of the descriptor for this size, nor free pages in a row in
      the kernel pool for a new arena or a big block, whose page count may have wrapped to 0. */
  ghost predicate CannotServe(h: Heap, bits: seq<bool>, size: nat)
    requires |h.free| == DESC_CNT
  {
    var d := DescFor(size, 0);
    if d == DESC_CNT then BigPages(size) == 0 || FirstGroup(bits, 0, BigPages(size), false) == None
    else h.free[d] == [] && FirstGroup(bits, 0, 1, false) == None
  }

  /** malloc() returns a null pointer for a size other than 0 exactly then. */
  lemma ServedExactly(h: Heap, bits: seq<bool>, base: nat, size: nat, page: Option<nat>)
    requires |h.free| == DESC_CNT && Given(bits, base, PagesWanted(h, size), page)
    ensures MallocStep(h, size, page).1 == None <==> size == 0 || CannotServe(h, bits, size)
  {
    hide FirstGroup, BigPages, AddArena, Take;
    MallocFails(h, size, page);
  }

  /** Arena a given back if it is wholly free. */
  ghost function Released(h: Heap, d: nat, a: nat): Heap
    requires d < |h.free|
  {
    if a in h.arenas && h.arenas[a].Small? && h.arenas[a].freeCnt >= PerArena(d) then DropArena(h, d, a) else h
  }

  /** free() of a live block */
  ghost function FreeStep(h: Heap, b: nat): Heap {
    var a := ArenaOf(b);
    if a !in h.arenas then h
    else if h.arenas[a].Big? then h.(arenas := h.arenas - {a}, live := h.live - {b})
    else if h.arenas[a].desc < |h.free| then Released(Push(h, h.arenas[a].desc, b), h.arenas[a].desc, a)
    else h
  }

  lemma FreeSmallKeepsInv(h: Heap, d: nat, a: nat, b: nat)
    requires Inv(h) && d < DESC_CNT && b in h.live && a == ArenaOf(b) && IsSmall(h.arenas, a, d)
    ensures Inv(Released(Push(h, d, b), d, a)) && Push(h, d, b).arenas[a].freeCnt <= PerArena(d)
  {
    var h1 := Push(h, d, b);
    PushKeepsInv(h, d, b);
    FullArena(h1, d, a);
    if h1.arenas[a].freeCnt >= PerArena(d) {
      DropArenaKeepsInv(h1, d, a);
    } else {
      NotFull(h1, d, a);
    }
  }

  /** free() keeps the invariant, its assertion on free_cnt included, and ends the
      life of that block alone. */
  lemma FreeKeepsInv(h: Heap, b: nat)
    requires Inv(h) && b in h.live
    ensures Inv(FreeStep(h, b)) && FreeStep(h, b).live == h.live - {b}
    ensures var a := ArenaOf(b);
            h.arenas[a].Small? ==> Push(h, h.arenas[a].desc, b).arenas[a].freeCnt <= PerArena(h.arenas[a].desc)
  {
    hide HeadersOk, ArenasApart, LiveOk, DescOk, Holds, BlockSize, PerArena;
    LiveArena(h, b);
    var a := ArenaOf(b);
    if h.arenas[a].Big? {
      FreeBigKeepsInv(h, b);
    } else {
      FreeSmallKeepsInv(h, h.arenas[a].desc, a, b);
    }
  }

  /** The block freed last, unless its arena went with it, is the next one that malloc() hands
      out for its descriptor. */
  lemma FreedFirst(h: Heap, b: nat, d: nat, size: nat)
    requires Inv(h) && b in h.live && IsSmall(h.arenas, ArenaOf(b), d) && d < DESC_CNT
    requires size > 0 && DescFor(size, 0) == d && ArenaOf(b) in FreeStep(h, b).arenas
    ensures MallocStep(FreeStep(h, b), size, None).1 == Some(b)
  {
    hide HeadersOk, ArenasApart, LiveOk, DescOk, Recount, Excluding;
  }

  lemma FullArena(h: Heap, d: nat, a: nat)
    requires d < DESC_CNT && InvBut(h, a) && IsSmall(h.arenas, a, d)
    ensures h.arenas[a].freeCnt <= PerArena(d)
  {
    assert DescOk(h.free[d], d, h.arenas, h.live, a);
  }

  lemma NotFull(h: Heap, d: nat, a: nat)
    requires d < DESC_CNT && InvBut(h, a) && IsSmall(h.arenas, a, d) && h.arenas[a].freeCnt < PerArena(d)
    ensures Inv(h)
  {
    forall e | 0 <= e < DESC_CNT ensures DescOk(h.free[e], e, h.arenas, h.live, 0) {
      assert DescOk(h.free[e], e, h.arenas, h.live, a);
    }
  }

  // ---------------------------------------------------------------------
  // What the invariant gives
  // ---------------------------------------------------------------------

  /** A live block has the size asked for and lies in the pages of its arena. */
  lemma BlockInside(h: Heap, b: nat)
    requires Inv(h) && b in h.live
    ensures var a := ArenaOf(b); a in h.arenas && a <= b && b + h.live[b] <= a + Pages(h.arenas[a]) * PGSIZE
  {
    var a := ArenaOf(b);
    assert Holds(h.arenas[a], a, b, h.live[b]);
    if h.arenas[a].Small? {
      BlocksOfArena(h.arenas[a].desc, a);
    }
  }

  lemma SameArenaApart(d: nat, a: nat, b: nat, c: nat)
    requires b in Blocks(d, a) && c in Blocks(d, a) && b < c
    ensures b + BlockSize(d) <= c
  {
    var s := BlockList(d, a, PerArena(d));
    var i :| 0 <= i < |s| && s[i] == b;
    var j :| 0 <= j < |s| && s[j] == c;
    if i < j {
      BlocksApart(d, a, i, j);
    } else if j < i {
      BlocksApart(d, a, j, i);
    }
  }

  /** Live blocks never overlap. */
  lemma LiveBlocksApart(h: Heap, b: nat, c: nat)
    requires Inv(h) && b in h.live && c in h.live && b < c
    ensures b + h.live[b] <= c
  {
    BlockInside(h, b);
    BlockInside(h, c);
    var a := ArenaOf(b);
    if ArenaOf(c) == a {
      assert Holds(h.arenas[a], a, b, h.live[b]) && Holds(h.arenas[a], a, c, h.live[c]);
      SameArenaApart(h.arenas[a].desc, a, b, c);
    } else {
      assert Beside(a, Pages(h.arenas[a]), ArenaOf(c), Pages(h.arenas[ArenaOf(c)]));
    }
  }

  /** malloc_init() */
  function Init(): Heap {
    Heap(seq(DESC_CNT, _ => []), map[], map[])
  }

  lemma InitInv()
    ensures Inv(Init())
  {
    assert forall d :: 0 <= d < DESC_CNT ==> Init().free[d] == [];
  }

  /** An arena without live blocks cannot exist between calls. */
  lemma ArenaInUse(h: Heap, a: nat)
    requires Inv(h) && a in h.arenas
    ensures exists b :: b in h.live && ArenaOf(b) == a
  {
    if h.arenas[a].Small? {
      var d := h.arenas[a].desc;
      BlocksOfArena(d, a);
      assert DescOk(h.free[d], d, h.arenas, h.live, 0) && IsSmall(h.arenas, a, d);
      assert FreeIn(h.free[d], a) <= Blocks(d, a);
      assert FreeIn(h.free[d], a) != Blocks(d, a);
      var b :| b in Blocks(d, a) && b !in FreeIn(h.free[d], a);
      assert b in h.live;
    }
  }

  /** When the last live block has been freed, nothing is left: every list is empty
      and every arena has been given back. */
  lemma Drained(h: Heap)
    requires Inv(h) && h.live == map[]
    ensures h == Init()
  {
    forall a ensures a !in h.arenas {
      if a in h.arenas {
        ArenaInUse(h, a);
      }
    }
    assert h.arenas == map[];
    forall d | 0 <= d < DESC_CNT ensures h.free[d] == [] {
      FirstOf(h.free[d]);
      assert DescOk(h.free[d], d, h.arenas, h.live, 0);
    }
  }

  lemma FirstOf(list: seq<nat>)
    ensures list == [] || list[0] in list
  {
  }

  datatype Call = MallocCall(size: nat, page: Option<nat>) | FreeCall(b: nat)

  ghost predicate Legal(h: Heap, c: Call)
    requires Inv(h)
  {
    match c
    case MallocCall(size, page) => size + ARENA_SIZE <= WORD && PageOk(h, size, page)
    case FreeCall(b) => b in h.live
  }

  ghost function After(h: Heap, c: Call): (h': Heap)
    requires Inv(h) && Legal(h, c)
    ensures Inv(h')
  {
    match c
    case MallocCall(size, page) => MallocKeepsInv(h, size, page); MallocStep(h, size, page).0
    case FreeCall(b) => FreeKeepsInv(h, b); FreeStep(h, b)
  }

  ghost predicate LegalRun(h: Heap, run: seq<Call>)
    requires Inv(h)
    decreases |run|
  {
    run != [] ==> Legal(h, run[0]) && LegalRun(After(h, run[0]), run[1..])
  }

  ghost function AfterRun(h: Heap, run: seq<Call>): (h': Heap)
    requires Inv(h) && LegalRun(h, run)
    ensures Inv(h')
    decreases |run|
  {
    if run == [] then h else AfterRun(After(h, run[0]), run[1..])
  }

  /** Over any run of malloc() and free(): no arena is ever without a live block, no
      two live blocks overlap, and freeing them all, in any order, ends where
      malloc_init() began. */
  lemma AnyRun(run: seq<Call>)
    requires Inv(Init()) && LegalRun(Init(), run)
    ensures var h := AfterRun(Init(), run);
            && (forall a :: a in h.arenas ==> exists b :: b in h.live && ArenaOf(b) == a)
            && (forall b, c :: b in h.live && c in h.live && b < c ==> b + h.live[b] <= c)
            && (h.live == map[] ==> h == Init())
  {
    var h := AfterRun(Init(), run);
    forall a | a in h.arenas ensures exists b :: b in h.live && ArenaOf(b) == a {
      ArenaInUse(h, a);
    }
    forall b, c | b in h.live && c in h.live && b < c ensures b + h.live[b] <= c {
      LiveBlocksApart(h, b, c);
    }
    if h.live == map[] {
      Drained(h);
    }
  }

  // ---------------------------------------------------------------------
  // The allocator in place
  // ---------------------------------------------------------------------

  lemma {:induction false} RemoveIsExcluding(list: seq<nat>, gone: set<nat>, b: nat)
    requires NoDup(list) && b in list && b !in gone
    ensures b in Excluding(list, gone)
    ensures RemoveFirst<nat>(Excluding(list, gone), b) == Excluding(list, gone + {b})
  {
    if list[0] == b {
      ExcludingAbsent(list[1..], gone, b);
    } else {
      assert b in list[1..];
      RemoveIsExcluding(list[1..], gone, b);
    }
  }

  lemma {:induction false} ExcludingAbsent(list: seq<nat>, gone: set<nat>, b: nat)
    requires b !in list
    ensures Excluding(list, gone + {b}) == Excluding(list, gone)
  {
    if list != [] {
      ExcludingAbsent(list[1..], gone, b);
    }
  }

  lemma {:induction false} ExcludingNone(list: seq<nat>)
    ensures Excluding(list, {}) == list
  {
    if list != [] {
      ExcludingNone(list[1..]);
    }
  }

  lemma NextBlock(d: nat, a: nat, i: nat)
    ensures BlockList(d, a, i + 1) == BlockList(d, a, i) + [ArenaToBlock(d, a, i)]
    ensures Elements(BlockList(d, a, i + 1)) == Elements(BlockList(d, a, i)) + {ArenaToBlock(d, a, i)}
    ensures ArenaToBlock(d, a, i) !in Elements(BlockList(d, a, i))
  {
    assert BlockList(d, a, i + 1) == BlockList(d, a, i) + [ArenaToBlock(d, a, i)];
    forall j: nat | j < i ensures ArenaToBlock(d, a, j) != ArenaToBlock(d, a, i) {
      BlocksApart(d, a, j, i);
    }
  }

  /** Every block of arena a is on the list, once. */
  ghost predicate Listed(list: seq<nat>, d: nat, a: nat) {
    NoDup(list) && forall b :: b in Blocks(d, a) ==> b in list
  }

  datatype Desc = Desc(blockSize: nat, blocksPerArena: nat)

  ghost predicate DescsOk(descs: seq<Desc>) {
    |descs| == DESC_CNT && forall d :: 0 <= d < DESC_CNT ==> descs[d] == Desc(BlockSize(d), PerArena(d))
  }

  /** The loop of malloc_init(): block sizes 16 to 1024, not the 2 kB of the file's
      comment. */
  method MakeDescs() returns (ds: seq<Desc>)
    ensures DescsOk(ds)
  {
    var blockSize := 16;
    ds := [];
    while blockSize < PGSIZE / 2
      invariant |ds| <= DESC_CNT && blockSize == BlockSize(|ds|)
      invariant forall d :: 0 <= d < |ds| ==> ds[d] == Desc(BlockSize(d), PerArena(d))
      decreases DESC_CNT - |ds|
    {
      SizesBelowHalf(|ds|);
      ds := ds + [Desc(blockSize, (PGSIZE - ARENA_SIZE) / blockSize)];
      blockSize := blockSize * 2;
    }
    SizesBelowHalf(|ds|);
  }

  /** The loop of malloc() that adds the blocks of a new arena to the empty list. */
  method CarveArena(desc: Desc, ghost d: nat, a: nat) returns (list: seq<nat>)
    requires desc == Desc(BlockSize(d), PerArena(d))
    ensures list == BlockList(d, a, PerArena(d))
  {
    list := [];
    var i := 0;
    while i < desc.blocksPerArena
      invariant 0 <= i <= PerArena(d) && list == BlockList(d, a, i)
    {
      NextBlock(d, a, i);
      list := list + [a + ARENA_SIZE + i * desc.blockSize];
      i := i + 1;
    }
  }

  /** The loop of free() that takes the blocks of a wholly free arena off the list:
      each one is on it. */
  method RemoveArena(desc: Desc, ghost d: nat, a: nat, all: seq<nat>) returns (list: seq<nat>)
    requires desc == Desc(BlockSize(d), PerArena(d)) && Listed(all, d, a)
    ensures list == Excluding(all, Blocks(d, a))
  {
    list := all;
    var i := 0;
    ExcludingNone(all);
    assert Elements(BlockList(d, a, 0)) == {};
    while i < desc.blocksPerArena
      invariant 0 <= i <= PerArena(d) && list == Excluding(all, Elements(BlockList(d, a, i)))
    {
      ghost var b := ArenaToBlock(d, a, i);
      NextBlock(d, a, i);
      assert b == BlockList(d, a, PerArena(d))[i] && b in Blocks(d, a);
      RemoveIsExcluding(all, Elements(BlockList(d, a, i)), b);
      list := RemoveFirst<nat>(list, a + ARENA_SIZE + i * desc.blockSize);
      i := i + 1;
    }
  }

  /** Every arena is a live group of pages of the pool with this base and size. */
  ghost predicate Backed(arenas: map<nat, Arena>, groups: Groups, base: nat, pageCnt: nat) {
    forall a :: a in arenas ==>
      && a % PGSIZE == 0 && base / PGSIZE <= a / PGSIZE < base / PGSIZE + pageCnt
      && a / PGSIZE - base / PGSIZE in groups && groups[a / PGSIZE - base / PGSIZE] == Pages(arenas[a])
  }

  lemma BackedMore(arenas: map<nat, Arena>, groups: Groups, base: nat, pageCnt: nat, a: nat, arena: Arena)
    requires Backed(arenas, groups, base, pageCnt)
    requires a % PGSIZE == 0 && base / PGSIZE <= a / PGSIZE < base / PGSIZE + pageCnt
    requires a / PGSIZE - base / PGSIZE !in groups
    ensures a !in arenas
    ensures Backed(arenas[a := arena], groups[a / PGSIZE - base / PGSIZE := Pages(arena)], base, pageCnt)
  {
  }

  lemma BackedLess(arenas: map<nat, Arena>, groups: Groups, base: nat, pageCnt: nat, a: nat)
    requires Backed(arenas, groups, base, pageCnt) && a in arenas
    ensures Backed(arenas - {a}, groups - {a / PGSIZE - base / PGSIZE}, base, pageCnt)
  {
  }

  lemma BackedSame(arenas: map<nat, Arena>, arenas': map<nat, Arena>, groups: Groups, base: nat, pageCnt: nat)
    requires Backed(arenas, groups, base, pageCnt) && SameButCount(arenas, arenas')
    ensures Backed(arenas', groups, base, pageCnt) && Held(arenas', base) == Held(arenas, base)
  {
  }

  /** The pool indices of the arenas. */
  ghost function Held(arenas: map<nat, Arena>, base: nat): set<nat> {
    set a | a in arenas && a / PGSIZE >= base / PGSIZE :: a / PGSIZE - base / PGSIZE
  }

  lemma HeldMore(arenas: map<nat, Arena>, base: nat, a: nat, arena: Arena, g: Groups, n: nat)
    requires a !in arenas && a / PGSIZE >= base / PGSIZE && a / PGSIZE - base / PGSIZE !in g
    ensures g[a / PGSIZE - base / PGSIZE := n] - Held(arenas[a := arena], base) == g - Held(arenas, base)
  {
    var i, arenas' := a / PGSIZE - base / PGSIZE, arenas[a := arena];
    forall j ensures j in Held(arenas', base) <==> j == i || j in Held(arenas, base) {
      if j == i {
        assert a in arenas' && a / PGSIZE >= base / PGSIZE;
      }
      if j in Held(arenas, base) {
        var x :| x in arenas && x / PGSIZE >= base / PGSIZE && j == x / PGSIZE - base / PGSIZE;
        assert x in arenas';
      }
    }
  }

  lemma HeldLess(arenas: map<nat, Arena>, base: nat, a: nat, g: Groups)
    requires a in arenas && a / PGSIZE >= base / PGSIZE && forall x :: x in arenas ==> x % PGSIZE == 0
    ensures (g - {a / PGSIZE - base / PGSIZE}) - Held(arenas - {a}, base) == g - Held(arenas, base)
  {
    var i, arenas' := a / PGSIZE - base / PGSIZE, arenas - {a};
    forall j ensures j in Held(arenas, base) <==> j == i || j in Held(arenas', base) {
      if j == i {
        assert a in arenas && a / PGSIZE >= base / PGSIZE;
      }
      if j in Held(arenas, base) && j != i {
        var x :| x in arenas && x / PGSIZE >= base / PGSIZE && j == x / PGSIZE - base / PGSIZE;
        assert x in arenas';
      }
    }
  }

  lemma GroupsBeside(base: nat, a: nat, n: nat, b: nat, m: nat)
    requires a % PGSIZE == 0 && b % PGSIZE == 0
    requires var i, j := a / PGSIZE - base / PGSIZE, b / PGSIZE - base / PGSIZE; i + n <= j || j + m <= i
    ensures Beside(a, n, b, m)
  {
  }

  /** A group palloc has just handed out is fresh for the allocator. */
  lemma GroupIsFresh(arenas: map<nat, Arena>, bits: seq<bool>, groups: Groups, base: nat, a: nat, n: nat)
    requires Backed(arenas, groups, base, |bits|) && base >= PGSIZE && n > 0
    requires a % PGSIZE == 0 && base / PGSIZE <= a / PGSIZE && a / PGSIZE - base / PGSIZE !in groups
    requires GroupsOk(bits, groups[a / PGSIZE - base / PGSIZE := n])
    ensures FreshPages(arenas, a, n)
  {
    var i: nat := a / PGSIZE - base / PGSIZE;
    var groups' := groups[i := n];
    forall x | x in arenas ensures Beside(a, n, x, Pages(arenas[x])) {
      var j: nat := x / PGSIZE - base / PGSIZE;
      assert i in groups' && j in groups' && i != j;
      GroupsBeside(base, a, n, x, Pages(arenas[x]));
    }
  }

  class Allocator {
    const pools: Pools
    const descs: seq<Desc>
    var free: seq<seq<nat>>
    var arenas: map<nat, Arena>
    ghost var live: map<nat, nat>

    ghost function State(): Heap
      reads this
    {
      Heap(free, arenas, live)
    }

    /** The pages of the arenas come from palloc. */
    ghost predicate PagesOk()
      reads this`arenas, pools.kernel, pools.kernel.usedMap.bits, pools.user, pools.user.usedMap.bits
    {
      && pools.Valid() && pools.kernel.base >= PGSIZE
      && Backed(arenas, pools.kernel.groups, pools.kernel.base, pools.kernel.usedMap.bitCnt)
    }

    ghost predicate Valid()
      reads this, pools.kernel, pools.kernel.usedMap.bits, pools.user, pools.user.usedMap.bits
    {
      PagesOk() && DescsOk(descs) && Inv(State())
    }

    /** The page groups of the kernel pool that other code holds. */
    ghost function Elsewhere(): Groups
      reads this`arenas, pools.kernel`groups
    {
      pools.kernel.groups - Held(arenas, pools.kernel.base)
    }

    /** malloc_init() */
    constructor (p: Pools)
      requires p.Valid() && p.kernel.base >= PGSIZE
      ensures Valid() && pools == p && State() == Init()
    {
      var ds := MakeDescs();
      pools := p;
      descs := ds;
      free := seq(DESC_CNT, _ => []);
      arenas := map[];
      live := map[];
      new;
      InitInv();
    }

    /** Ask palloc for the pages of a new arena; what it gives is fresh. */
    method GetPages(n: nat, ghost arena: Arena) returns (page: Option<nat>)
      requires PagesOk() && Pages(arena) == n && HeadersOk(arenas)
      modifies pools.kernel`groups, pools.kernel.usedMap.bits, pools.user`groups, pools.user.usedMap.bits
      ensures pools.Valid() && pools.user.groups == old(pools.user.groups)
      ensures page == None ==> pools.kernel.groups == old(pools.kernel.groups)
      ensures Given(old(pools.kernel.usedMap.Bits()), pools.kernel.base, n, page)
      ensures page.Some? ==>
                && FreshPages(arenas, page.value, n) && page.value !in arenas
                && Backed(arenas[page.value := arena], pools.kernel.groups, pools.kernel.base,
                   pools.kernel.usedMap.bitCnt)
                && pools.kernel.groups - Held(arenas[page.value := arena], pools.kernel.base) == old(Elsewhere())
    {
      hide HeadersOk, Backed, Held, Given;
      page := pools.GetMultiple(false, n);
      if page.Some? {
        ghost var pool, groups := pools.kernel, old(pools.kernel.groups);
        GroupIsFresh(arenas, pool.usedMap.Bits(), groups, pool.base, page.value, n);
        BackedMore(arenas, groups, pool.base, pool.usedMap.bitCnt, page.value, arena);
        HeldMore(arenas, pools.kernel.base, page.value, arena, old(pools.kernel.groups), n);
      }
    }

    /** The smallest descriptor that satisfies the request. */
    method FindDesc(size: nat) returns (d: nat)
      requires DescsOk(descs)
      ensures d == DescFor(size, 0)
    {
      d := 0;
      while d < |descs| && descs[d].blockSize < size
        invariant 0 <= d <= DESC_CNT && DescFor(size, 0) == DescFor(size, d)
      {
        d := d + 1;
      }
    }

    /** A block too big for any descriptor. */
    method MallocBig(size: nat) returns (b: Option<nat>, ghost page: Option<nat>)
      requires PagesOk() && HeadersOk(arenas)
      modifies this`arenas, this`live
      modifies pools.kernel`groups, pools.kernel.usedMap.bits, pools.user`groups, pools.user.usedMap.bits
      ensures PagesOk() && Elsewhere() == old(Elsewhere()) && pools.user.groups == old(pools.user.groups)
      ensures page == None ==> b == None && State() == old(State()) && pools.kernel.groups == old(pools.kernel.groups)
      ensures page.Some? ==>
                && FreshPages(old(arenas), page.value, BigPages(size)) && b == Some(page.value + ARENA_SIZE)
                && arenas == old(arenas)[page.value := Big(BigPages(size))]
                && live == old(live)[page.value + ARENA_SIZE := size]
      ensures Given(old(pools.kernel.usedMap.Bits()), pools.kernel.base, BigPages(size), page)
    {
      hide HeadersOk, Backed, Held, FreshPages, GroupsOk, Given;
      var pageCnt := ((size + ARENA_SIZE) % WORD + PGSIZE - 1) % WORD / PGSIZE;
      var a := GetPages(pageCnt, Big(pageCnt));
      page := a;
      if a == None {
        return None, None;
      }
      arenas := arenas[a.value := Big(pageCnt)];
      live := live[a.value + ARENA_SIZE := size];
      return Some(a.value + ARENA_SIZE), page;
    }

    /** A new arena for descriptor d, whose list is empty. */
    method NewArena(d: nat) returns (page: Option<nat>)
      requires PagesOk() && HeadersOk(arenas) && DescsOk(descs) && d < DESC_CNT == |free| && free[d] == []
      modifies this`free, this`arenas
      modifies pools.kernel`groups, pools.kernel.usedMap.bits, pools.user`groups, pools.user.usedMap.bits
      ensures PagesOk() && Elsewhere() == old(Elsewhere()) && pools.user.groups == old(pools.user.groups)
      ensures page == None ==> State() == old(State()) && pools.kernel.groups == old(pools.kernel.groups)
      ensures page.Some? ==> FreshPages(old(arenas), page.value, 1) && State() == AddArena(old(State()), d, page.value)
      ensures Given(old(pools.kernel.usedMap.Bits()), pools.kernel.base, 1, page)
    {
      hide HeadersOk, Backed, Held, FreshPages, BlockList, PerArena, Given;
      page := GetPages(1, Small(d, PerArena(d)));
      if page.Some? {
        arenas := arenas[page.value := Small(d, descs[d].blocksPerArena)];
        var list := CarveArena(descs[d], d, page.value);
        NewList(State(), d, page.value);
        free := free[d := list];
      }
    }

    /** Add to the free_cnt of arena a. */
    method CountFree(ghost d: nat, a: nat, delta: int)
      requires PagesOk() && IsSmall(arenas, a, d)
      modifies this`arenas
      ensures PagesOk() && Elsewhere() == old(Elsewhere()) && arenas == Recount(old(arenas), a, delta)
    {
      hide Backed, Held, SameButCount, Recount;
      RecountKeeps(d, arenas, a, delta);
      BackedSame(arenas, Recount(arenas, a, delta), pools.kernel.groups, pools.kernel.base,
          pools.kernel.usedMap.bitCnt);
      arenas := Recount(arenas, a, delta);
    }

    /** Hand out the first block of list d. */
    method TakeFirst(d: nat, ghost size: nat) returns (b: nat)
      requires PagesOk() && d < |free| && free[d] != [] && IsSmall(arenas, ArenaOf(free[d][0]), d)
      modifies this`free, this`arenas, this`live
      ensures PagesOk() && Elsewhere() == old(Elsewhere())
      ensures b == old(free)[d][0] && State() == Take(old(State()), d, size)
    {
      b := free[d][0];
      CountFree(d, ArenaOf(b), -1);
      free := free[d := free[d][1..]];
      live := live[b := size];
    }

    /** A block from list d, which is refilled if it is empty. */
    method MallocSmall(d: nat, ghost size: nat) returns (b: Option<nat>, ghost page: Option<nat>)
      requires PagesOk() && HeadersOk(arenas) && DescsOk(descs) && d == DescFor(size, 0) < DESC_CNT == |free|
               && size > 0
      requires free[d] != [] ==> IsSmall(arenas, ArenaOf(free[d][0]), d)
      modifies this`free, this`arenas, this`live
      modifies pools.kernel`groups, pools.kernel.usedMap.bits, pools.user`groups, pools.user.usedMap.bits
      ensures PagesOk() && Elsewhere() == old(Elsewhere()) && pools.user.groups == old(pools.user.groups)
      ensures PageOk(old(State()), size, page)
      ensures (State(), b) == MallocStep(old(State()), size, page)
      ensures b == None ==> pools.kernel.groups == old(pools.kernel.groups)
      ensures Given(old(pools.kernel.usedMap.Bits()), pools.kernel.base, PagesWanted(old(State()), size), page)
    {
      hide HeadersOk, Backed, Held, BlockList, FirstGroup;
      page := None;
      ghost var h := State();
      if free[d] == [] {
        var a := NewArena(d);
        page := a;
        if a == None {
          return None, None;
        }
        NewFirst(h, d, a.value);
      }
      var block := TakeFirst(d, size);
      return Some(block), page;
    }

    /** malloc() of a size other than 0. */
    method MallocNonzero(size: nat) returns (b: Option<nat>, ghost page: Option<nat>)
      requires PagesOk() && HeadersOk(arenas) && DescsOk(descs) && |free| == DESC_CNT && size > 0
      requires var d := DescFor(size, 0); d < DESC_CNT && free[d] != [] ==> IsSmall(arenas, ArenaOf(free[d][0]), d)
      modifies this`free, this`arenas, this`live
      modifies pools.kernel`groups, pools.kernel.usedMap.bits, pools.user`groups, pools.user.usedMap.bits
      ensures PagesOk() && Elsewhere() == old(Elsewhere()) && pools.user.groups == old(pools.user.groups)
      ensures PageOk(old(State()), size, page)
      ensures (State(), b) == MallocStep(old(State()), size, page)
      ensures b == None ==> pools.kernel.groups == old(pools.kernel.groups)
      ensures Given(old(pools.kernel.usedMap.Bits()), pools.kernel.base, PagesWanted(old(State()), size), page)
    {
      hide Given;
      var d := FindDesc(size);
      if d == |descs| {
        b, page := MallocBig(size);
      } else {
        b, page := MallocSmall(d, size);
      }
    }

    /** malloc().  The result is a null pointer or a block of at least size bytes that
        overlaps no live block: a null pointer exactly for size 0 or when no page can serve
        the request.  `page` is what palloc returned.  The 11 largest sizes, whose page count
        wraps around to 1, are excluded. */
    method Malloc(size: nat) returns (b: Option<nat>, ghost page: Option<nat>)
      requires Valid() && size + ARENA_SIZE <= WORD
      modifies this`free, this`arenas, this`live
      modifies pools.kernel`groups, pools.kernel.usedMap.bits, pools.user`groups, pools.user.usedMap.bits
      ensures Valid() && PageOk(old(State()), size, page)
      ensures (State(), b) == MallocStep(old(State()), size, page)
      ensures if b == None then State() == old(State()) else b.value !in old(live) && live == old(live)[b.value := size]
      ensures b == None ==> pools.kernel.groups == old(pools.kernel.groups)
      ensures Elsewhere() == old(Elsewhere()) && pools.user.groups == old(pools.user.groups)
      ensures Given(old(pools.kernel.usedMap.Bits()), pools.kernel.base, PagesWanted(old(State()), size), page)
      ensures b == None <==> size == 0 || CannotServe(old(State()), old(pools.kernel.usedMap.Bits()), size)
    {
      hide FirstGroup, CannotServe;
      b, page := None, None;
      ghost var h := State();
      if size != 0 {
        FirstOfDesc(h, DescFor(size, 0));
        b, page := MallocNonzero(size);
        MallocKeepsInv(h, size, page);
      }
      ServedExactly(h, old(pools.kernel.usedMap.Bits()), pools.kernel.base, size, page);
    }

    /** calloc().  A block that it returns has the bytes that were asked for exactly
        if their number fits in 32 bits. */
    method Calloc(a: nat, b: nat) returns (p: Option<nat>, ghost page: Option<nat>)
      requires Valid() && a < WORD && b < WORD && Product(a, b) + ARENA_SIZE <= WORD
      modifies this`free, this`arenas, this`live
      modifies pools.kernel`groups, pools.kernel.usedMap.bits, pools.user`groups, pools.user.usedMap.bits
      ensures Valid() && PageOk(old(State()), Product(a, b), page)
      ensures CallocSize(a, b) == None ==> p == None && State() == old(State())
      ensures CallocSize(a, b).Some? ==> (State(), p) == MallocStep(old(State()), CallocSize(a, b).value, page)
      ensures if p == None then State() == old(State()) && pools.kernel.groups == old(pools.kernel.groups)
              else p.value !in old(live) && live == old(live)[p.value := live[p.value]]
                   && (live[p.value] == a * b <==> a * b < WORD)
      ensures Elsewhere() == old(Elsewhere()) && pools.user.groups == old(pools.user.groups)
      ensures p == None <==>
              CallocSize(a, b) == None || CallocSize(a, b).value == 0
              || CannotServe(old(State()), old(pools.kernel.usedMap.Bits()), CallocSize(a, b).value)
    {
      hide Inv, MallocStep, FreshPages, Backed, Held, Product, Given, CannotServe;
      var size := Product(a, b);
      if size < a || size < b {
        return None, None;
      }
      p, page := Malloc(size);
    }

    /** Give the pages of arena a back. */
    method FreePages(a: nat)
      requires PagesOk() && a in arenas
      modifies this`arenas
      modifies pools.kernel`groups, pools.kernel.usedMap.bits, pools.user`groups, pools.user.usedMap.bits
      ensures PagesOk() && arenas == old(arenas) - {a}
      ensures Elsewhere() == old(Elsewhere()) && pools.user.groups == old(pools.user.groups)
    {
      HeldLess(arenas, pools.kernel.base, a, pools.kernel.groups);
      BackedLess(arenas, pools.kernel.groups, pools.kernel.base, pools.kernel.usedMap.bitCnt, a);
      var pageCnt := if arenas[a].Big? then arenas[a].pageCnt else 1;
      pools.FreeMultiple(a, pageCnt);
      arenas := arenas - {a};
    }

    /** Put block b back at the front of list d. */
    method PushFirst(d: nat, b: nat)
      requires PagesOk() && d < |free| && IsSmall(arenas, ArenaOf(b), d)
      modifies this`free, this`arenas, this`live
      ensures PagesOk() && Elsewhere() == old(Elsewhere()) && State() == Push(old(State()), d, b)
    {
      CountFree(d, ArenaOf(b), 1);
      free := free[d := [b] + free[d]];
      live := live - {b};
    }

    /** Take the blocks of the wholly free arena a off list d and give its page back. */
    method ReleaseArena(d: nat, a: nat)
      requires PagesOk() && DescsOk(descs) && d < DESC_CNT == |free| && a in arenas && Listed(free[d], d, a)
      modifies this`free, this`arenas
      modifies pools.kernel`groups, pools.kernel.usedMap.bits, pools.user`groups, pools.user.usedMap.bits
      ensures PagesOk() && State() == DropArena(old(State()), d, a)
      ensures Elsewhere() == old(Elsewhere()) && pools.user.groups == old(pools.user.groups)
    {
      var list := RemoveArena(descs[d], d, a, free[d]);
      free := free[d := list];
      FreePages(a);
    }

    /** The part of free() for a normal block. */
    method FreeSmall(d: nat, a: nat, b: nat)
      requires PagesOk() && DescsOk(descs) && d < DESC_CNT == |free| && a == ArenaOf(b) && IsSmall(arenas, a, d)
      requires Push(State(), d, b).arenas[a].freeCnt >= PerArena(d) ==> Listed(Push(State(), d, b).free[d], d, a)
      modifies this`free, this`arenas, this`live
      modifies pools.kernel`groups, pools.kernel.usedMap.bits, pools.user`groups, pools.user.usedMap.bits
      ensures PagesOk() && Elsewhere() == old(Elsewhere()) && pools.user.groups == old(pools.user.groups)
      ensures State() == Released(Push(old(State()), d, b), d, a)
    {
      PushFirst(d, b);
      if arenas[a].freeCnt >= descs[d].blocksPerArena {
        ReleaseArena(d, a);
      }
    }

    /** The body of free(), for a block of a known arena. */
    method FreeBlock(a: nat, b: nat)
      requires PagesOk() && DescsOk(descs) && |free| == DESC_CNT && a == ArenaOf(b) && a in arenas
      requires arenas[a].Small? ==> arenas[a].desc < DESC_CNT && ListedAfterPush(State(), arenas[a].desc, b)
      modifies this`free, this`arenas, this`live
      modifies pools.kernel`groups, pools.kernel.usedMap.bits, pools.user`groups, pools.user.usedMap.bits
      ensures PagesOk() && Elsewhere() == old(Elsewhere()) && pools.user.groups == old(pools.user.groups)
      ensures State() == FreeStep(old(State()), b)
    {
      if arenas[a].Small? {
        FreeSmall(arenas[a].desc, a, b);
      } else {
        FreePages(a);
        live := live - {b};
      }
    }

    /** free() */
    method Free(p: Option<nat>)
      requires Valid() && (p.Some? ==> p.value in live)
      modifies this`free, this`arenas, this`live
      modifies pools.kernel`groups, pools.kernel.usedMap.bits, pools.user`groups, pools.user.usedMap.bits
      ensures Valid()
      ensures State() == if p == None then old(State()) else FreeStep(old(State()), p.value)
      ensures live == if p == None then old(live) else old(live) - {p.value}
      ensures Elsewhere() == old(Elsewhere()) && pools.user.groups == old(pools.user.groups)
    {
      if p.Some? {
        LiveArena(State(), p.value);
        ReadyToRelease(State(), ArenaOf(p.value), p.value);
        FreeKeepsInv(State(), p.value);
        FreeBlock(ArenaOf(p.value), p.value);
      }
    }

    /** realloc(): `copied` is the number of bytes moved to the new block: all that the
        old one was asked to hold as far as they fit, and none of another live block. */
    method Realloc(p: Option<nat>, newSize: nat) returns (r: Option<nat>, copied: nat, ghost page: Option<nat>)
      requires Valid() && (p.Some? ==> p.value in live) && newSize + ARENA_SIZE <= WORD
      modifies this`free, this`arenas, this`live
      modifies pools.kernel`groups, pools.kernel.usedMap.bits, pools.user`groups, pools.user.usedMap.bits
      ensures Valid() && Elsewhere() == old(Elsewhere()) && pools.user.groups == old(pools.user.groups)
      ensures newSize == 0 ==> r == None && live == if p == None then old(live) else old(live) - {p.value}
      ensures newSize > 0 && r == None ==> State() == old(State())
      ensures newSize > 0 ==>
                (r == None <==> CannotServe(old(State()), old(pools.kernel.usedMap.Bits()), newSize))
      ensures newSize > 0 && r.Some? ==>
                && r.value !in old(live)
                && live == (if p == None then old(live) else old(live) - {p.value})[r.value := newSize]
      ensures r.Some? && p.Some? ==>
                && Min(newSize, old(live)[p.value]) <= copied <= newSize
                && forall c :: c in old(live) && p.value < c ==> p.value + copied <= c
    {
      hide MallocStep, PageOk, FreshPages, Backed, Held, Given, CannotServe, FreeStep, GroupsOk, PartitionOk, ListOk;
      hide CountOk;
      copied, page := 0, None;
      if newSize == 0 {
        Free(p);
        return None, 0, None;
      }
      r, page := Malloc(newSize);
      if p.Some? && r.Some? {
        MoveBlock(old(live), p.value, r.value, newSize);
        copied := CopyAndFree(p.value, newSize);
      }
    }

    method CopyAndFree(b: nat, newSize: nat) returns (copied: nat)
      requires Valid() && b in live
      modifies this`free, this`arenas, this`live
      modifies pools.kernel`groups, pools.kernel.usedMap.bits, pools.user`groups, pools.user.usedMap.bits
      ensures Valid() && Elsewhere() == old(Elsewhere()) && pools.user.groups == old(pools.user.groups)
      ensures live == old(live) - {b} && Min(newSize, old(live)[b]) <= copied <= newSize
      ensures forall c :: c in old(live) && b < c ==> b + copied <= c
    {
      copied := CopySize(b, newSize);
      Free(Some(b));
    }

    method CopySize(b: nat, newSize: nat) returns (copied: nat)
      requires Valid() && b in live
      ensures Min(newSize, live[b]) <= copied <= newSize
      ensures forall c :: c in live && b < c ==> b + copied <= c
    {
      var oldSize := BlockExtent(b);
      copied := Min(newSize, oldSize);
    }

    /** block_size(): at least what was asked for. */
    method BlockExtent(b: nat) returns (n: nat)
      requires Valid() && b in live
      ensures live[b] <= n && forall c :: c in live && b < c ==> b + n <= c
    {
      LiveArena(State(), b);
      ExtentsApart(State(), b);
      var a := ArenaOf(b);
      n := if arenas[a].Small? then descs[arenas[a].desc].blockSize else PGSIZE * arenas[a].pageCnt - b % PGSIZE;
    }

    /** When nothing is live the allocator holds no page and no block: everything it
        ever took from palloc has been returned. */
    lemma AllReturned()
      requires Valid() && live == map[]
      ensures State() == Init() && Elsewhere() == pools.kernel.groups
    {
      Drained(State());
    }
  }

  lemma LiveArena(h: Heap, b: nat)
    requires Inv(h) && b in h.live
    ensures var a := ArenaOf(b);
            && a in h.arenas && Holds(h.arenas[a], a, b, h.live[b])
            && (h.arenas[a].Small? ==> h.arenas[a].desc < DESC_CNT)
  {
  }

  lemma MoveBlock(live: map<nat, nat>, b: nat, c: nat, size: nat)
    requires b != c
    ensures live[c := size] - {b} == (live - {b})[c := size]
  {
  }

  /** After block b is pushed, a count that has reached blocks_per_arena means that
      the list holds the whole arena. */
  ghost predicate ListedAfterPush(h: Heap, d: nat, b: nat)
    requires d < |h.free|
  {
    var h', a := Push(h, d, b), ArenaOf(b);
    a in h'.arenas && h'.arenas[a].Small? && h'.arenas[a].freeCnt >= PerArena(d) ==> Listed(h'.free[d], d, a)
  }

  lemma ReadyToRelease(h: Heap, a: nat, b: nat)
    requires Inv(h) && b in h.live && a == ArenaOf(b)
    ensures h.arenas[a].Small? ==> ListedAfterPush(h, h.arenas[a].desc, b)
  {
    if h.arenas[a].Small? {
      var d := h.arenas[a].desc;
      var h' := Push(h, d, b);
      PushKeepsInv(h, d, b);
      FullArena(h', d, a);
      assert DescOk(h'.free[d], d, h'.arenas, h'.live, a);
      if h'.arenas[a].freeCnt >= PerArena(d) {
        WhollyFree(h'.free[d], d, h'.arenas, h'.live, a, a);
      }
    }
  }

  /** Even in full, a block overlaps no live block. */
  lemma ExtentsApart(h: Heap, b: nat)
    requires Inv(h) && b in h.live
    ensures var a := ArenaOf(b); a in h.arenas
    ensures var a := ArenaOf(b);
            var n := if h.arenas[a].Small? then BlockSize(h.arenas[a].desc)
                else PGSIZE * h.arenas[a].pageCnt - b % PGSIZE;
            h.live[b] <= n && forall c :: c in h.live && b < c ==> b + n <= c
  {
    var a := ArenaOf(b);
    LiveArena(h, b);
    forall c | c in h.live && b < c
      ensures b + (if h.arenas[a].Small? then BlockSize(h.arenas[a].desc)
                   else PGSIZE * h.arenas[a].pageCnt - b % PGSIZE) <= c
    {
      LiveArena(h, c);
      BlockInside(h, c);
      if ArenaOf(c) == a {
        SameArenaApart(h.arenas[a].desc, a, b, c);
      } else {
        assert Beside(a, Pages(h.arenas[a]), ArenaOf(c), Pages(h.arenas[ArenaOf(c)]));
        if h.arenas[a].Small? {
          BlocksOfArena(h.arenas[a].desc, a);
        }
      }
    }
    if h.arenas[a].Big? {
      InPage(a, ARENA_SIZE);
    }
  }

  /** There is no descriptor for 2 kB: from 1025 bytes on malloc() takes whole pages. */
  lemma LargestBlock(size: nat)
    ensures DescFor(size, 0) < DESC_CNT <==> size <= 1024
  {
    assert BlockSize(6) == 1024;
    SizesBelowHalf(6);
    SizesBelowHalf(7);
    if size <= 1024 {
      assert BlockSize(6) >= size;
    } else {
      forall d: nat | d < DESC_CNT ensures BlockSize(d) <= 1024 {
        SmallSizes(d);
      }
    }
  }

  lemma SmallSizes(d: nat)
    requires d <= 6
    ensures BlockSize(d) <= 1024
  {
    assert BlockSize(0) == 16 && BlockSize(1) == 32 && BlockSize(2) == 64 && BlockSize(3) == 128;
    assert BlockSize(4) == 256 && BlockSize(5) == 512 && BlockSize(6) == 1024;
  }

  lemma SizesBelowHalf(d: nat)
    requires d <= DESC_CNT
    ensures BlockSize(d) < PGSIZE / 2 <==> d < DESC_CNT
  {
    assert BlockSize(0) == 16 && BlockSize(1) == 32 && BlockSize(2) == 64 && BlockSize(3) == 128;
    assert BlockSize(4) == 256 && BlockSize(5) == 512 && BlockSize(6) == 1024 && BlockSize(7) == 2048;
  }
}

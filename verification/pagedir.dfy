/**
 userprog/pagedir.c with the entry formats of threads/pte.h and threads/vaddr.h: a
 two-level page table in memory, proved against the partial map from user pages to
 frames that it stands for.

 `tables` holds the contents of the pages that serve as directories and tables, by
 kernel virtual address.
 */
module PageTables {
  import opened Common

  type Address = bv32

  /** A directory or table entry. */
  datatype Entry = Entry(bits: bv32)

  const EMPTY: Entry := Entry(0)

  /** A page of memory, by its kernel virtual address. */
  datatype Page = Page(addr: Address)

  type Table = seq<Entry>
  type Tables = map<Page, Table>

  const PHYS_BASE: bv32 := 0xc000_0000
  const ENTRIES: nat := 1024
  /** pd_no (PHYS_BASE) */
  const USER_ENTRIES: nat := 768

  const PTE_ADDR: bv32 := 0xffff_f000
  const PTE_P: bv32 := 0x1
  const PTE_W: bv32 := 0x2
  const PTE_U: bv32 := 0x4

  function PdNo(va: Address): nat {
    (va >> 22) as nat
  }

  function PtNo(va: Address): nat {
    ((va & 0x3f_f000) >> 12) as nat
  }

  function PgOfs(va: Address): bv32 {
    va & 0xfff
  }

  predicate IsUser(va: Address) {
    va < PHYS_BASE
  }

  function Vtop(va: Address): bv32 {
    va - PHYS_BASE
  }

  function Ptov(pa: bv32): Address {
    pa + PHYS_BASE
  }

  /** pde_create() */
  function PdeCreate(pt: Page): Entry {
    Entry(Vtop(pt.addr) | PTE_U | PTE_P | PTE_W)
  }

  /** pde_get_pt() and pte_get_page() */
  function PageOf(e: Entry): Page {
    Page(Ptov(e.bits & PTE_ADDR))
  }

  /** pte_create_user() */
  function PteCreateUser(page: Page, writable: bool): Entry {
    Entry(Vtop(page.addr) | PTE_P | (if writable then PTE_W else 0) | PTE_U)
  }

  predicate Present(e: Entry) {
    e.bits & PTE_P != 0
  }

  predicate Writable(e: Entry) {
    e.bits & PTE_W != 0
  }

  /** A program may use the entry, not the kernel alone. */
  predicate UserMode(e: Entry) {
    e.bits & PTE_U != 0
  }

  /** A page in kernel memory. */
  predicate IsKernelPage(page: Page) {
    page.addr >= PHYS_BASE && PgOfs(page.addr) == 0
  }

  /** The entry with its present bit cleared. */
  function Absent(e: Entry): Entry {
    Entry(e.bits & !PTE_P)
  }

  /** A directory entry for the page table pt. */
  ghost predicate Links(pde: Entry, pt: Page) {
    pde != EMPTY && Present(pde) && UserMode(pde) && Writable(pde) && PageOf(pde) == pt
  }

  /** The bits of an entry do not get in each other's way. */
  lemma PdeRoundTrip(pt: Page)
    requires IsKernelPage(pt)
    ensures PageOf(PdeCreate(pt)) == pt && Links(PdeCreate(pt), pt)
  {
  }

  lemma PteRoundTrip(page: Page, writable: bool)
    requires IsKernelPage(page)
    ensures var e := PteCreateUser(page, writable);
            PageOf(e) == page && Present(e) && Writable(e) == writable && UserMode(e)
  {
  }

  lemma Cleared(e: Entry)
    ensures !Present(Absent(e)) && PageOf(Absent(e)) == PageOf(e)
    ensures Writable(Absent(e)) == Writable(e) && UserMode(Absent(e)) == UserMode(e)
  {
  }

  lemma EmptyAbsent()
    ensures !Present(EMPTY)
  {
  }

  /** The address in a page that has the offset of va. */
  function Within(page: Page, va: Address): Address {
    page.addr + PgOfs(va)
  }

  lemma DirectoryIndex(va: Address)
    ensures PdNo(va) < ENTRIES
    ensures IsUser(va) ==> PdNo(va) < USER_ENTRIES
  {
  }

  lemma TableIndex(va: Address)
    ensures PtNo(va) < ENTRIES
  {
  }

  lemma FieldsIdentify(a: Address, b: Address, d: bv32, t: bv32)
    requires a & 0xfff == 0 && b & 0xfff == 0
    requires d == a >> 22 && d == b >> 22 && t == (a & 0x3f_f000) >> 12 && t == (b & 0x3f_f000) >> 12
    ensures a == b
  {
  }

  lemma AndBack(x: bv32)
    ensures (x as nat) as bv32 == x
  {
  }

  lemma NatIdentifies(x: bv32, y: bv32)
    requires x as nat == y as nat
    ensures x == y
  {
    AndBack(x);
    AndBack(y);
  }

  /** The two indexes identify a page. */
  lemma IndexesIdentify(a: Address, b: Address)
    requires PgOfs(a) == 0 && PgOfs(b) == 0 && PdNo(a) == PdNo(b) && PtNo(a) == PtNo(b)
    ensures a == b
  {
    NatIdentifies(a >> 22, b >> 22);
    NatIdentifies((a & 0x3f_f000) >> 12, (b & 0x3f_f000) >> 12);
    FieldsIdentify(a, b, a >> 22, (a & 0x3f_f000) >> 12);
  }

  // ---------------------------------------------------------------------
  // The map a page directory stands for
  // ---------------------------------------------------------------------

  /** Directory entry e is empty or points at a page table, and leaves it to the table what a
      program may do. */
  ghost predicate PdeOk(tables: Tables, pd: Page, e: Entry) {
    e == EMPTY || (Links(e, PageOf(e)) && PageOf(e) in tables && |tables[PageOf(e)]| == ENTRIES && PageOf(e) != pd)
  }

  /** The user part of a page directory: its tables are shared with no other entry,
      the kernel's included. */
  ghost predicate Wf(tables: Tables, pd: Page) {
    && pd in tables && |tables[pd]| == ENTRIES
    && (forall i :: 0 <= i < USER_ENTRIES ==> PdeOk(tables, pd, tables[pd][i]))
    && (forall i, j :: 0 <= i < USER_ENTRIES && i < j < ENTRIES && tables[pd][i] != EMPTY ==>
       PageOf(tables[pd][i]) != PageOf(tables[pd][j]))
  }

  /** The entry for indexes i and j, if there is a table for it. */
  ghost function EntryAt(tables: Tables, pd: Page, i: nat, j: nat): Option<Entry>
    requires Wf(tables, pd) && i < USER_ENTRIES && j < ENTRIES
  {
    assert PdeOk(tables, pd, tables[pd][i]);
    if tables[pd][i] == EMPTY then None else Some(tables[PageOf(tables[pd][i])][j])
  }

  datatype Mapping = Mapping(frame: Page, writable: bool, user: bool)

  /** What the page with indexes i and j is mapped to. */
  ghost function MappingAt(tables: Tables, pd: Page, i: nat, j: nat): Option<Mapping>
    requires Wf(tables, pd) && i < USER_ENTRIES && j < ENTRIES
  {
    var e := EntryAt(tables, pd, i, j);
    if e.Some? && Present(e.value) then Some(Mapping(PageOf(e.value), Writable(e.value), UserMode(e.value)))
    else None
  }

  /** The kernel's directory entries, and every table that is none of the user's, are
      the same. */
  ghost predicate KernelSame(tables: Tables, tables': Tables, pd: Page)
    requires Wf(tables, pd) && Wf(tables', pd)
  {
    && (forall i :: USER_ENTRIES <= i < ENTRIES ==> tables'[pd][i] == tables[pd][i])
    && (forall t ::
          (t in tables && t != pd
           && forall i :: 0 <= i < USER_ENTRIES && tables[pd][i] != EMPTY ==> PageOf(tables[pd][i]) != t)
          ==> t in tables' && tables'[t] == tables[t])
  }

  /** The same map but for what `m` says about the page with indexes i and j. */
  ghost predicate OnlyChanges(tables: Tables, tables': Tables, pd: Page, i: nat, j: nat, m: Option<Mapping>)
    requires i < USER_ENTRIES && j < ENTRIES
  {
    && Wf(tables, pd) && Wf(tables', pd) && KernelSame(tables, tables', pd)
    && MappingAt(tables', pd, i, j) == m
    && forall k, l :: 0 <= k < USER_ENTRIES && 0 <= l < ENTRIES && (k != i || l != j) ==>
         MappingAt(tables', pd, k, l) == MappingAt(tables, pd, k, l)
  }

  function ZeroTable(): (t: Table)
    ensures |t| == ENTRIES && forall i :: 0 <= i < ENTRIES ==> t[i] == EMPTY
  {
    seq(ENTRIES, _ => EMPTY)
  }

  /** The tables after an empty page table pt is hooked in at entry i. */
  function WithTable(tables: Tables, pd: Page, i: nat, pt: Page, pde: Entry): Tables
    requires pd in tables && i < |tables[pd]|
  {
    tables[pt := ZeroTable()][pd := tables[pd][i := pde]]
  }

  /** The tables after entry j of the table at directory entry i is written. */
  function WithEntry(tables: Tables, pd: Page, i: nat, j: nat, e: Entry): Tables
    requires pd in tables && i < |tables[pd]| && PageOf(tables[pd][i]) in tables && j < |tables[PageOf(tables[pd][i])]|
  {
    var pt := PageOf(tables[pd][i]);
    tables[pt := tables[pt][j := e]]
  }

  /** A fresh page: no table, and none a directory entry of pd points at. */
  ghost predicate FreshPage(tables: Tables, pd: Page, pt: Page)
    requires pd in tables
  {
    IsKernelPage(pt) && pt !in tables && forall i :: 0 <= i < |tables[pd]| ==> PageOf(tables[pd][i]) != pt
  }

  lemma WithTableWf(tables: Tables, pd: Page, i: nat, pt: Page, pde: Entry)
    requires Wf(tables, pd) && i < USER_ENTRIES && tables[pd][i] == EMPTY && FreshPage(tables, pd, pt) && Links(pde, pt)
    ensures var tables' := WithTable(tables, pd, i, pt, pde);
            && Wf(tables', pd) && pt != pd && tables'[pd] == tables[pd][i := pde]
            && tables'[pt] == ZeroTable() && forall t :: t in tables && t != pd ==> t != pt && tables'[t] == tables[t]
  {
    var tables' := WithTable(tables, pd, i, pt, pde);
    assert pt != pd && tables'[pd] == tables[pd][i := pde];
    forall k | 0 <= k < USER_ENTRIES ensures PdeOk(tables', pd, tables'[pd][k]) {
      assert PdeOk(tables, pd, tables[pd][k]);
      if k == i {
        assert tables'[pd][k] == pde;
      } else {
        assert tables'[pd][k] == tables[pd][k];
      }
    }
    forall k, l | 0 <= k < USER_ENTRIES && k < l < ENTRIES && tables'[pd][k] != EMPTY
      ensures PageOf(tables'[pd][k]) != PageOf(tables'[pd][l])
    {
      assert tables'[pd][k] == if k == i then pde else tables[pd][k];
      assert tables'[pd][l] == if l == i then pde else tables[pd][l];
      assert PageOf(tables[pd][k]) != pt && PageOf(tables[pd][l]) != pt;
      assert tables[pd][k] != EMPTY ==> PageOf(tables[pd][k]) != PageOf(tables[pd][l]);
    }
  }

  lemma WithTableSame(tables: Tables, pd: Page, i: nat, pt: Page, pde: Entry)
    requires Wf(tables, pd) && i < USER_ENTRIES && tables[pd][i] == EMPTY && FreshPage(tables, pd, pt) && Links(pde, pt)
    ensures var tables' := WithTable(tables, pd, i, pt, pde);
            Wf(tables', pd) && KernelSame(tables, tables', pd)
            && forall k, l :: 0 <= k < USER_ENTRIES && 0 <= l < ENTRIES ==>
               MappingAt(tables', pd, k, l) == MappingAt(tables, pd, k, l)
  {
    WithTableWf(tables, pd, i, pt, pde);
    var tables' := WithTable(tables, pd, i, pt, pde);
    forall k, l | 0 <= k < USER_ENTRIES && 0 <= l < ENTRIES
      ensures MappingAt(tables', pd, k, l) == MappingAt(tables, pd, k, l)
    {
      assert PdeOk(tables, pd, tables[pd][k]);
      if k == i {
        assert tables'[pd][k] == pde && EntryAt(tables', pd, k, l) == Some(EMPTY);
        EmptyAbsent();
      } else {
        assert tables'[pd][k] == tables[pd][k];
        assert EntryAt(tables', pd, k, l) == EntryAt(tables, pd, k, l);
      }
    }
  }

  lemma WithEntryWf(tables: Tables, pd: Page, i: nat, j: nat, e: Entry)
    requires Wf(tables, pd) && i < USER_ENTRIES && tables[pd][i] != EMPTY && j < ENTRIES
    ensures PdeOk(tables, pd, tables[pd][i])
    ensures var tables' := WithEntry(tables, pd, i, j, e);
            && Wf(tables', pd) && tables'[pd] == tables[pd]
            && forall t :: t in tables && t != PageOf(tables[pd][i]) ==> tables'[t] == tables[t]
  {
    assert PdeOk(tables, pd, tables[pd][i]);
    var tables' := WithEntry(tables, pd, i, j, e);
    assert tables'[pd] == tables[pd];
    forall k | 0 <= k < USER_ENTRIES ensures PdeOk(tables', pd, tables'[pd][k]) {
      assert PdeOk(tables, pd, tables[pd][k]);
    }
    forall k, l | 0 <= k < USER_ENTRIES && k < l < ENTRIES && tables'[pd][k] != EMPTY
      ensures PageOf(tables'[pd][k]) != PageOf(tables'[pd][l])
    {
      assert PageOf(tables[pd][k]) != PageOf(tables[pd][l]);
    }
  }

  lemma WithEntryChanges(tables: Tables, pd: Page, i: nat, j: nat, e: Entry)
    requires Wf(tables, pd) && i < USER_ENTRIES && tables[pd][i] != EMPTY && j < ENTRIES
    ensures PdeOk(tables, pd, tables[pd][i])
    ensures OnlyChanges(tables, WithEntry(tables, pd, i, j, e), pd, i, j,
                        if Present(e) then Some(Mapping(PageOf(e), Writable(e), UserMode(e))) else None)
  {
    WithEntryWf(tables, pd, i, j, e);
    var tables' := WithEntry(tables, pd, i, j, e);
    assert EntryAt(tables', pd, i, j) == Some(e);
    forall k, l | 0 <= k < USER_ENTRIES && 0 <= l < ENTRIES && (k != i || l != j)
      ensures MappingAt(tables', pd, k, l) == MappingAt(tables, pd, k, l)
    {
      assert PdeOk(tables, pd, tables[pd][k]);
      if tables[pd][k] != EMPTY && k != i {
        TablesApart(tables, pd, i, k);
      }
      assert EntryAt(tables', pd, k, l) == EntryAt(tables, pd, k, l);
    }
  }

  lemma NothingChanges(tables: Tables, pd: Page, i: nat, j: nat)
    requires Wf(tables, pd) && i < USER_ENTRIES && j < ENTRIES
    ensures OnlyChanges(tables, tables, pd, i, j, MappingAt(tables, pd, i, j))
  {
  }

  lemma TablesApart(tables: Tables, pd: Page, i: nat, k: nat)
    requires Wf(tables, pd) && i < USER_ENTRIES && k < USER_ENTRIES && i != k
    requires tables[pd][i] != EMPTY && tables[pd][k] != EMPTY
    ensures PageOf(tables[pd][i]) != PageOf(tables[pd][k])
  {
    var a, b := if i < k then i else k, if i < k then k else i;
    assert PageOf(tables[pd][a]) != PageOf(tables[pd][b]);
  }

  // ---------------------------------------------------------------------
  // The operations
  // ---------------------------------------------------------------------

  class Memory {
    var tables: Tables

    constructor (t: Tables)
      ensures tables == t
    {
      tables := t;
    }

    /** lookup_page(): the place of the entry for va, as its table and index.  `page`
        is what palloc_get_page() would return. */
    method LookupPage(pd: Page, va: Address, create: bool, page: Option<Page>) returns (place: Option<(Page, nat)>)
      requires Wf(tables, pd) && IsUser(va)
      requires page.Some? ==> FreshPage(tables, pd, page.value)
      modifies this
      ensures PdNo(va) < USER_ENTRIES && PtNo(va) < ENTRIES && Wf(tables, pd)
      ensures tables == if old(tables)[pd][PdNo(va)] == EMPTY && create && page.Some?
              then WithTable(old(tables), pd, PdNo(va), page.value, PdeCreate(page.value)) else old(tables)
      ensures place == if tables[pd][PdNo(va)] == EMPTY then None else Some((PageOf(tables[pd][PdNo(va)]), PtNo(va)))
      ensures create && page.Some? ==> place.Some?
    {
      DirectoryIndex(va);
      TableIndex(va);
      var i := PdNo(va);
      if tables[pd][i] == EMPTY {
        if !create || page == None {
          return None;
        }
        PdeRoundTrip(page.value);
        WithTableWf(tables, pd, i, page.value, PdeCreate(page.value));
        tables := tables[page.value := ZeroTable()];
        tables := tables[pd := tables[pd][i := PdeCreate(page.value)]];
      }
      return Some((PageOf(tables[pd][i]), PtNo(va)));
    }

    /** pagedir_set_page() of a page that is not mapped: false, with nothing changed, if
        a page table is missing and there is no memory for it; otherwise the map gains
        that page and changes for no other. */
    method SetPage(pd: Page, upage: Address, kpage: Page, writable: bool, page: Option<Page>) returns (ok: bool)
      requires Wf(tables, pd) && IsUser(upage) && PgOfs(upage) == 0 && IsKernelPage(kpage)
      requires page.Some? ==> FreshPage(tables, pd, page.value)
      requires PdNo(upage) < USER_ENTRIES && PtNo(upage) < ENTRIES
               && MappingAt(tables, pd, PdNo(upage), PtNo(upage)) == None
      modifies this
      ensures ok <==> page.Some? || old(tables)[pd][PdNo(upage)] != EMPTY
      ensures !ok ==> tables == old(tables)
      ensures ok ==>
                OnlyChanges(old(tables), tables, pd, PdNo(upage), PtNo(upage), Some(Mapping(kpage, writable, true)))
    {
      hide PdNo, PtNo, PageOf, Writable, UserMode, OnlyChanges, MappingAt, PteCreateUser, PdeCreate;
      ghost var i, j, was := PdNo(upage), PtNo(upage), tables;
      assert PdeOk(was, pd, was[pd][i]);
      var place := LookupPage(pd, upage, true, page);
      if place == None {
        return false;
      }
      ghost var mid := tables;
      if was[pd][i] == EMPTY {
        PdeRoundTrip(page.value);
        WithTableSame(was, pd, i, page.value, PdeCreate(page.value));
      }
      PteRoundTrip(kpage, writable);
      WithEntryChanges(tables, pd, i, j, PteCreateUser(kpage, writable));
      var (pt, index) := place.value;
      tables := tables[pt := tables[pt][index := PteCreateUser(kpage, writable)]];
      ChangesOn(was, mid, tables, pd, i, j, Some(Mapping(kpage, writable, true)));
      return true;
    }

    /** The entry lookup_page() leads to when it may not create a table. */
    method ReadEntry(pd: Page, va: Address) returns (r: Option<Entry>)
      requires Wf(tables, pd) && IsUser(va)
      ensures PdNo(va) < USER_ENTRIES && PtNo(va) < ENTRIES && r == EntryAt(tables, pd, PdNo(va), PtNo(va))
    {
      DirectoryIndex(va);
      TableIndex(va);
      var pde := tables[pd][PdNo(va)];
      assert PdeOk(tables, pd, pde);
      r := if pde == EMPTY then None else Some(tables[PageOf(pde)][PtNo(va)]);
    }

    /** pagedir_get_page(): the frame's address plus the offset in the page. */
    method GetPage(pd: Page, uaddr: Address) returns (r: Option<Address>)
      requires Wf(tables, pd) && IsUser(uaddr)
      ensures PdNo(uaddr) < USER_ENTRIES && PtNo(uaddr) < ENTRIES
      ensures var m := MappingAt(tables, pd, PdNo(uaddr), PtNo(uaddr));
              r == if m == None then None else Some(Within(m.value.frame, uaddr))
    {
      var pte := ReadEntry(pd, uaddr);
      r := if pte.Some? && Present(pte.value) then Some(Within(PageOf(pte.value), uaddr)) else None;
    }

    /** pagedir_clear_page(): the page is unmapped afterwards, mapped or not before. */
    method ClearPage(pd: Page, upage: Address)
      requires Wf(tables, pd) && IsUser(upage) && PgOfs(upage) == 0
      modifies this
      ensures PdNo(upage) < USER_ENTRIES && PtNo(upage) < ENTRIES
      ensures OnlyChanges(old(tables), tables, pd, PdNo(upage), PtNo(upage), None)
    {
      hide PdNo, PtNo, PageOf, Present, Absent, Writable, UserMode, Links, KernelSame, OnlyChanges;
      var place := LookupPage(pd, upage, false, None);
      ghost var was, i, j := tables, PdNo(upage), PtNo(upage);
      assert PdeOk(was, pd, was[pd][i]);
      NothingChanges(was, pd, i, j);
      if place.Some? {
        var (pt, index) := place.value;
        var pte := tables[pt][index];
        if Present(pte) {
          Cleared(pte);
          WithEntryChanges(was, pd, i, j, Absent(pte));
          tables := tables[pt := tables[pt][index := Absent(pte)]];
        }
      }
    }

    /** pagedir_create() in a fresh page, from a kernel directory without user entries:
        nothing is mapped and the kernel's entries are copied. */
    method Create(init: Page, page: Option<Page>) returns (pd: Option<Page>)
      requires init in tables && |tables[init]| == ENTRIES
      requires forall i :: 0 <= i < USER_ENTRIES ==> tables[init][i] == EMPTY
      requires page.Some? ==> page.value !in tables
      modifies this
      ensures pd == page && (pd == None ==> tables == old(tables))
      ensures pd.Some? ==>
                && Wf(tables, pd.value) && tables == old(tables)[pd.value := old(tables)[init]]
                && forall i, j :: 0 <= i < USER_ENTRIES && 0 <= j < ENTRIES ==>
                   MappingAt(tables, pd.value, i, j) == None
    {
      pd := page;
      if pd.Some? {
        tables := tables[pd.value := tables[init]];
      }
    }

    /** The inner loop of pagedir_destroy(): the frames of one table. */
    method FreeFrames(pt: Page) returns (freed: seq<Page>)
      requires pt in tables && |tables[pt]| == ENTRIES
      ensures freed == Frames(tables[pt], ENTRIES)
    {
      freed := [];
      var j := 0;
      while j < ENTRIES
        invariant 0 <= j <= ENTRIES && freed == Frames(tables[pt], j)
      {
        if Present(tables[pt][j]) {
          freed := freed + [PageOf(tables[pt][j])];
        }
        j := j + 1;
      }
    }

    /** pagedir_destroy(): the pages handed to palloc_free_page(), in order. */
    method Destroy(pd: Page) returns (freed: seq<Page>)
      requires Wf(tables, pd)
      ensures freed == DirectoryPages(tables, pd, USER_ENTRIES) + [pd]
    {
      freed := [];
      var i := 0;
      while i < USER_ENTRIES
        invariant 0 <= i <= USER_ENTRIES && freed == DirectoryPages(tables, pd, i)
      {
        assert PdeOk(tables, pd, tables[pd][i]);
        EmptyAbsent();
        if Present(tables[pd][i]) {
          var pt := PageOf(tables[pd][i]);
          var frames := FreeFrames(pt);
          freed := freed + (frames + [pt]);
        }
        i := i + 1;
      }
      freed := freed + [pd];
    }
  }

  /** The frames the first n entries of a table map. */
  function Frames(t: Table, n: nat): (s: seq<Page>)
    requires n <= |t|
  {
    if n == 0 then []
    else Frames(t, n - 1) + (if Present(t[n - 1]) then [PageOf(t[n - 1])] else [])
  }

  /** The pages freed for one directory entry. */
  ghost function OnePages(tables: Tables, pd: Page, i: nat): seq<Page>
    requires Wf(tables, pd) && i < USER_ENTRIES
  {
    var e := tables[pd][i];
    assert PdeOk(tables, pd, e);
    if e != EMPTY && Present(e) then Frames(tables[PageOf(e)], ENTRIES) + [PageOf(e)] else []
  }

  /** What pagedir_destroy() frees for the first n directory entries. */
  ghost function DirectoryPages(tables: Tables, pd: Page, n: nat): (s: seq<Page>)
    requires Wf(tables, pd) && n <= USER_ENTRIES
  {
    if n == 0 then [] else DirectoryPages(tables, pd, n - 1) + OnePages(tables, pd, n - 1)
  }

  /** The page with indexes i and j is mapped to frame f. */
  ghost predicate Maps(tables: Tables, pd: Page, i: nat, j: nat, f: Page)
    requires Wf(tables, pd)
  {
    && i < USER_ENTRIES && j < ENTRIES
    && MappingAt(tables, pd, i, j).Some? && MappingAt(tables, pd, i, j).value.frame == f
  }

  /** Directory entry i points at the page table pt. */
  ghost predicate HasTable(tables: Tables, pd: Page, i: nat, pt: Page)
    requires Wf(tables, pd)
  {
    i < USER_ENTRIES && tables[pd][i] != EMPTY && PageOf(tables[pd][i]) == pt
  }

  /** No frame is mapped twice, and none serves as a table of this directory. */
  ghost predicate FramesDistinct(tables: Tables, pd: Page)
    requires Wf(tables, pd)
  {
    && (forall i, j, k, l, f, g ::
          Maps(tables, pd, i, j, f) && Maps(tables, pd, k, l, g) && (i != k || j != l) ==> f != g)
    && (forall i, j, k, f, pt :: Maps(tables, pd, i, j, f) && HasTable(tables, pd, k, pt) ==> f != pt)
    && (forall i, j, f :: Maps(tables, pd, i, j, f) ==> f != pd)
  }

  lemma {:induction false} InFrames(t: Table, n: nat, f: Page)
    requires n <= |t|
    ensures f in Frames(t, n) <==> exists j :: 0 <= j < n && Present(t[j]) && PageOf(t[j]) == f
  {
    if n > 0 {
      InFrames(t, n - 1, f);
      assert Present(t[n - 1]) && PageOf(t[n - 1]) == f ==> f in Frames(t, n);
    }
  }

  lemma {:induction false} FramesNoDup(t: Table, n: nat)
    requires n <= |t|
    requires forall j, l :: 0 <= j < l < n && Present(t[j]) && Present(t[l]) ==> PageOf(t[j]) != PageOf(t[l])
    ensures NoDup(Frames(t, n))
  {
    if n > 0 {
      FramesNoDup(t, n - 1);
      InFrames(t, n - 1, PageOf(t[n - 1]));
      if Present(t[n - 1]) {
        NoDupJoin(Frames(t, n - 1), [PageOf(t[n - 1])]);
      }
    }
  }

  lemma NoDupJoin<T>(s: seq<T>, t: seq<T>)
    requires NoDup(s) && NoDup(t) && forall x :: x in s ==> x !in t
    ensures NoDup(s + t)
  {
    var r := s + t;
    forall i, j | 0 <= i < j < |r| ensures r[i] != r[j] {
      if i < |s| <= j {
        assert s[i] in s && t[j - |s|] in t;
      }
    }
  }

  /** Page f is a frame mapped through directory entry i, or its table. */
  ghost predicate FreedAt(tables: Tables, pd: Page, i: nat, f: Page)
    requires Wf(tables, pd)
  {
    (exists j :: Maps(tables, pd, i, j, f)) || HasTable(tables, pd, i, f)
  }

  /** The pages pagedir_destroy() frees for the first n entries are exactly the mapped
      frames and the page tables there. */
  lemma {:induction false} InDirectory(tables: Tables, pd: Page, n: nat, f: Page)
    requires Wf(tables, pd) && n <= USER_ENTRIES
    ensures f in DirectoryPages(tables, pd, n) <==> exists i :: 0 <= i < n && FreedAt(tables, pd, i, f)
  {
    if n > 0 {
      InDirectory(tables, pd, n - 1, f);
      InOne(tables, pd, n - 1, f);
    }
  }

  lemma InOne(tables: Tables, pd: Page, i: nat, f: Page)
    requires Wf(tables, pd) && i < USER_ENTRIES
    ensures f in OnePages(tables, pd, i) <==> FreedAt(tables, pd, i, f)
  {
    var e := tables[pd][i];
    assert PdeOk(tables, pd, e);
    if e != EMPTY {
      var t := tables[PageOf(e)];
      InFrames(t, ENTRIES, f);
      forall j: nat | j < ENTRIES ensures Maps(tables, pd, i, j, f) <==> Present(t[j]) && PageOf(t[j]) == f {
        assert EntryAt(tables, pd, i, j) == Some(t[j]);
      }
    }
  }

  lemma OneNoDup(tables: Tables, pd: Page, i: nat)
    requires Wf(tables, pd) && i < USER_ENTRIES && FramesDistinct(tables, pd)
    ensures NoDup(OnePages(tables, pd, i))
  {
    var e := tables[pd][i];
    assert PdeOk(tables, pd, e);
    if e != EMPTY {
      var t, pt := tables[PageOf(e)], PageOf(e);
      assert HasTable(tables, pd, i, pt);
      forall j: nat | j < ENTRIES && Present(t[j]) ensures Maps(tables, pd, i, j, PageOf(t[j])) && PageOf(t[j]) != pt {
        assert EntryAt(tables, pd, i, j) == Some(t[j]);
        assert Maps(tables, pd, i, j, PageOf(t[j]));
      }
      FramesNoDup(t, ENTRIES);
      InFrames(t, ENTRIES, pt);
      NoDupJoin(Frames(t, ENTRIES), [pt]);
    }
  }

  lemma FreedEarlier(tables: Tables, pd: Page, i: nat, f: Page)
    requires Wf(tables, pd) && i < USER_ENTRIES && FramesDistinct(tables, pd) && f in DirectoryPages(tables, pd, i)
    ensures f !in OnePages(tables, pd, i)
  {
    InDirectory(tables, pd, i, f);
    InOne(tables, pd, i, f);
    OnlyOneEntry(tables, pd, i, f);
  }

  lemma {:induction false} DirectoryNoDup(tables: Tables, pd: Page, n: nat)
    requires Wf(tables, pd) && n <= USER_ENTRIES && FramesDistinct(tables, pd)
    ensures NoDup(DirectoryPages(tables, pd, n))
  {
    hide Wf, FramesDistinct, OnePages, PdeOk;
    if n > 0 {
      DirectoryNoDup(tables, pd, n - 1);
      OneNoDup(tables, pd, n - 1);
      var was, one := DirectoryPages(tables, pd, n - 1), OnePages(tables, pd, n - 1);
      forall f | f in was ensures f !in one {
        FreedEarlier(tables, pd, n - 1, f);
      }
      NoDupJoin(was, one);
    }
  }

  /** A page freed for an earlier entry is not freed for entry i. */
  lemma OnlyOneEntry(tables: Tables, pd: Page, i: nat, f: Page)
    requires Wf(tables, pd) && i < USER_ENTRIES && FramesDistinct(tables, pd)
    requires exists k :: 0 <= k < i && FreedAt(tables, pd, k, f)
    ensures !FreedAt(tables, pd, i, f)
  {
    var k :| 0 <= k < i && FreedAt(tables, pd, k, f);
    if HasTable(tables, pd, k, f) && tables[pd][i] != EMPTY {
      TablesApart(tables, pd, k, i);
    }
  }

  /** pagedir_destroy() frees each mapped frame, each user page table and the directory
      exactly once and nothing else, given that no frame is mapped twice. */
  lemma DestroyFreesOnce(tables: Tables, pd: Page, f: Page)
    requires Wf(tables, pd) && FramesDistinct(tables, pd)
    ensures var freed := DirectoryPages(tables, pd, USER_ENTRIES) + [pd];
            && NoDup(freed)
            && (f in freed <==> f == pd || exists i: nat :: FreedAt(tables, pd, i, f))
  {
    DirectoryNoDup(tables, pd, USER_ENTRIES);
    InDirectory(tables, pd, USER_ENTRIES, f);
    InDirectory(tables, pd, USER_ENTRIES, pd);
    forall i: nat ensures !HasTable(tables, pd, i, pd) {
      assert i < USER_ENTRIES ==> PdeOk(tables, pd, tables[pd][i]);
    }
    NoDupJoin(DirectoryPages(tables, pd, USER_ENTRIES), [pd]);
  }

  /** The tables of the kernel are not among the pages freed. */
  lemma KernelTablesKept(tables: Tables, pd: Page, k: nat)
    requires Wf(tables, pd) && USER_ENTRIES <= k < ENTRIES
    requires forall i, j :: !Maps(tables, pd, i, j, PageOf(tables[pd][k]))
    ensures PageOf(tables[pd][k]) !in DirectoryPages(tables, pd, USER_ENTRIES)
  {
    InDirectory(tables, pd, USER_ENTRIES, PageOf(tables[pd][k]));
  }

  /** The 80386's walk through both levels lets a program read, or write, at va. */
  ghost predicate Accessible(tables: Tables, pd: Page, va: Address, write: bool) {
    && pd in tables && PdNo(va) < |tables[pd]|
    && var pde := tables[pd][PdNo(va)];
       && Present(pde) && UserMode(pde) && (write ==> Writable(pde))
       && PageOf(pde) in tables && PtNo(va) < |tables[PageOf(pde)]|
       && var pte := tables[PageOf(pde)][PtNo(va)];
          Present(pte) && UserMode(pte) && (write ==> Writable(pte))
  }

  /** A program may use exactly the pages in the map that pagedir_set_page() made, and write to
      exactly those it made writable. */
  lemma UserAccess(tables: Tables, pd: Page, va: Address, write: bool)
    requires Wf(tables, pd) && IsUser(va)
    ensures PdNo(va) < USER_ENTRIES && PtNo(va) < ENTRIES
    ensures Accessible(tables, pd, va, write) <==>
            var m := MappingAt(tables, pd, PdNo(va), PtNo(va));
            m.Some? && m.value.user && (write ==> m.value.writable)
  {
    hide PdNo, PtNo, PageOf, Present, Writable, UserMode;
    DirectoryIndex(va);
    TableIndex(va);
    EmptyAbsent();
    assert PdeOk(tables, pd, tables[pd][PdNo(va)]);
  }

  /** A change to the mapping of one page leaves every other user page alone. */
  lemma OtherPages(tables: Tables, tables': Tables, pd: Page, upage: Address, other: Address, m: Option<Mapping>)
    requires IsUser(upage) && IsUser(other) && PgOfs(upage) == 0 && PgOfs(other) == 0 && other != upage
    requires PdNo(upage) < USER_ENTRIES && PtNo(upage) < ENTRIES
    requires OnlyChanges(tables, tables', pd, PdNo(upage), PtNo(upage), m)
    ensures PdNo(other) < USER_ENTRIES && PtNo(other) < ENTRIES
    ensures MappingAt(tables', pd, PdNo(other), PtNo(other)) == MappingAt(tables, pd, PdNo(other), PtNo(other))
  {
    DirectoryIndex(other);
    TableIndex(other);
    if PdNo(other) == PdNo(upage) && PtNo(other) == PtNo(upage) {
      IndexesIdentify(other, upage);
    }
  }

  lemma ChangesOn(a: Tables, b: Tables, c: Tables, pd: Page, i: nat, j: nat, m: Option<Mapping>)
    requires i < USER_ENTRIES && j < ENTRIES && Wf(a, pd) && OnlyChanges(b, c, pd, i, j, m) && KernelSame(a, b, pd)
    requires forall k, l :: 0 <= k < USER_ENTRIES && 0 <= l < ENTRIES ==>
             MappingAt(b, pd, k, l) == MappingAt(a, pd, k, l)
    requires forall k :: 0 <= k < USER_ENTRIES && b[pd][k] != a[pd][k] ==> b[pd][k] == EMPTY || PageOf(b[pd][k]) !in a
    ensures OnlyChanges(a, c, pd, i, j, m)
  {
    forall t | t in a && t != pd && (forall i :: 0 <= i < USER_ENTRIES && a[pd][i] != EMPTY ==> PageOf(a[pd][i]) != t)
      ensures t in c && c[t] == a[t]
    {
      assert t in b && b[t] == a[t];
      forall k | 0 <= k < USER_ENTRIES && b[pd][k] != EMPTY ensures PageOf(b[pd][k]) != t {
        assert b[pd][k] == a[pd][k] || PageOf(b[pd][k]) !in a;
      }
    }
  }
}

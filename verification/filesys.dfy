/**
 The life of files: filesys/filesys.c, inode.c, free-map.c and directory.c.

 The state is a value: the in-memory free map, what each disk sector was last
 written as, the list of open inodes, and the slots of the root directory.  `owned`
 records the inodes that exist, with their extents.  What a run cannot control
 (whether memory is available, whether the free map file can be written) comes in
 as parameters.
 */
module FileSystems {
  import opened Common
  import opened Bitmaps

  const SECTOR_SIZE: nat := 512
  const FREE_MAP_SECTOR: nat := 0
  const ROOT_DIR_SECTOR: nat := 1
  const NAME_MAX: nat := 14

  /** struct inode_disk */
  datatype Extent = Extent(start: nat, length: nat)

  datatype Block = Header(data: Extent) | Data

  /** struct dir_entry */
  datatype Entry = Entry(inUse: bool, sector: nat, name: string)

  /** struct inode */
  datatype Open = Open(sector: nat, cnt: nat, removed: bool, data: Extent)

  datatype State = State(
    used: seq<bool>,
    disk: seq<Block>,
    open: seq<Open>,
    dir: seq<Entry>,
    owned: map<nat, Extent>)

  /** bytes_to_sectors() */
  function Sectors(length: nat): nat {
    (length + SECTOR_SIZE - 1) / SECTOR_SIZE
  }

  /** Sector x belongs to the data of an inode. */
  predicate InExtent(x: nat, e: Extent) {
    e.start <= x < e.start + Sectors(e.length)
  }

  /** Sector x is the header at s or belongs to its data. */
  predicate Occupies(x: nat, s: nat, e: Extent) {
    x == s || InExtent(x, e)
  }

  // ---------------------------------------------------------------------
  // The invariant
  // ---------------------------------------------------------------------

  /** An inode's header is on the disk, its sectors are marked used, and the header
      is not one of its data sectors. */
  ghost predicate InodeOk(used: seq<bool>, disk: seq<Block>, s: nat, e: Extent) {
    && s < |disk| == |used| && disk[s] == Header(e) && !InExtent(s, e)
    && e.start + Sectors(e.length) <= |used|
    && forall x: nat :: Occupies(x, s, e) ==> x < |used| && used[x]
  }

  ghost predicate Apart(s: nat, e: Extent, t: nat, f: Extent) {
    forall x: nat :: !(Occupies(x, s, e) && Occupies(x, t, f))
  }

  ghost predicate DiskOk(used: seq<bool>, disk: seq<Block>, owned: map<nat, Extent>) {
    && (forall s :: s in owned ==> InodeOk(used, disk, s, owned[s]))
    && (forall s, t :: s in owned && t in owned && s != t ==> Apart(s, owned[s], t, owned[t]))
  }

  /** At most one in-memory inode per sector, each with an opener. */
  ghost predicate OpenOk(open: seq<Open>, owned: map<nat, Extent>) {
    && (forall k :: 0 <= k < |open| ==>
          && open[k].cnt > 0 && open[k].sector in owned && open[k].data == owned[open[k].sector]
          && (open[k].removed ==> open[k].sector > ROOT_DIR_SECTOR))
    && (forall j, k :: 0 <= j < k < |open| ==> open[j].sector != open[k].sector)
  }

  predicate ValidName(name: string) {
    0 < |name| <= NAME_MAX
  }

  /** Entry i names the inode at s. */
  predicate Names(dir: seq<Entry>, i: nat, s: nat) {
    i < |dir| && dir[i].inUse && dir[i].sector == s
  }

  ghost predicate DirOk(dir: seq<Entry>, owned: map<nat, Extent>) {
    && (forall i :: 0 <= i < |dir| && dir[i].inUse ==>
          dir[i].sector in owned && dir[i].sector > ROOT_DIR_SECTOR && ValidName(dir[i].name))
    && (forall i, j :: 0 <= i < j < |dir| && dir[i].inUse && dir[j].inUse ==> dir[i].sector != dir[j].sector)
  }

  /** A removed inode has no name any more. */
  ghost predicate RemovedOk(open: seq<Open>, dir: seq<Entry>) {
    forall k, i: nat :: 0 <= k < |open| && open[k].removed ==> !Names(dir, i, open[k].sector)
  }

  ghost predicate Inv(fs: State) {
    && DiskOk(fs.used, fs.disk, fs.owned) && OpenOk(fs.open, fs.owned)
    && DirOk(fs.dir, fs.owned) && RemovedOk(fs.open, fs.dir)
    && FREE_MAP_SECTOR in fs.owned && ROOT_DIR_SECTOR in fs.owned
  }

  // ---------------------------------------------------------------------
  // free-map.c
  // ---------------------------------------------------------------------

  /** free_map_allocate(): `written` says whether the free map file could be written. */
  ghost function Allocate(used: seq<bool>, cnt: nat, written: bool): (seq<bool>, Option<nat>) {
    var r := FirstGroup(used, 0, cnt, false);
    if r == None || !written || r.value + cnt > |used| then (used, None) else (SetBits(used, r.value, cnt, true), r)
  }

  /** free_map_release() */
  ghost function Release(used: seq<bool>, s: nat, cnt: nat): seq<bool>
    requires s + cnt <= |used|
  {
    SetBits(used, s, cnt, false)
  }

  // ---------------------------------------------------------------------
  // inode.c
  // ---------------------------------------------------------------------

  /** The disk after zeros are written to cnt sectors. */
  ghost function Zeroed(disk: seq<Block>, start: nat, cnt: nat): seq<Block> {
    seq(|disk|, i requires 0 <= i < |disk| => if start <= i < start + cnt then Data else disk[i])
  }

  /** inode_create() for a sector that has been allocated. */
  ghost function InodeCreate(fs: State, s: nat, length: nat, memory: bool, written: bool): (State, bool)
    requires s < |fs.disk|
  {
    if !memory then (fs, false)
    else
      var (used, start) := Allocate(fs.used, Sectors(length), written);
      if start == None then (fs, false)
      else
        var e := Extent(start.value, length);
        (fs.(used := used,
             disk := Zeroed(fs.disk[s := Header(e)], e.start, Sectors(length)),
             owned := fs.owned[s := e]), true)
  }

  /** The position in open_inodes of the inode of a sector, or the length. */
  function OpenIndex(open: seq<Open>, s: nat): (k: nat)
    ensures k <= |open| && (k < |open| ==> open[k].sector == s)
    ensures forall i :: 0 <= i < k ==> open[i].sector != s
  {
    if open == [] || open[0].sector == s then 0 else 1 + OpenIndex(open[1..], s)
  }

  ghost predicate IsOpen(open: seq<Open>, s: nat) {
    exists k :: 0 <= k < |open| && open[k].sector == s
  }

  function HeaderAt(disk: seq<Block>, s: nat): Extent {
    if s < |disk| && disk[s].Header? then disk[s].data else Extent(0, 0)
  }

  /** inode_open(): `memory` says whether a new struct inode can be allocated. */
  function InodeOpen(fs: State, s: nat, memory: bool): (State, bool) {
    var k := OpenIndex(fs.open, s);
    if k < |fs.open| then (fs.(open := fs.open[k := fs.open[k].(cnt := fs.open[k].cnt + 1)]), true)
    else if !memory then (fs, false)
    else (fs.(open := [Open(s, 1, false, HeaderAt(fs.disk, s))] + fs.open), true)
  }

  function Without<T>(s: seq<T>, k: nat): (r: seq<T>)
    requires k < |s|
    ensures |r| == |s| - 1
  {
    s[..k] + s[k + 1..]
  }

  /** inode_close() of the inode at position k of open_inodes. */
  ghost function InodeClose(fs: State, k: nat): State {
    if k >= |fs.open| || fs.open[k].cnt == 0 then fs
    else if fs.open[k].cnt > 1 then fs.(open := fs.open[k := fs.open[k].(cnt := fs.open[k].cnt - 1)])
    else
      var o := fs.open[k];
      var fs1 := fs.(open := Without(fs.open, k));
      if !o.removed then fs1
      else if o.sector < |fs.used| && o.data.start + Sectors(o.data.length) <= |fs.used| then
        fs1.(used := Release(Release(fs.used, o.sector, 1), o.data.start, Sectors(o.data.length)),
             owned := fs.owned - {o.sector})
      else fs1
  }

  /** inode_remove() */
  function InodeRemove(fs: State, k: nat): State {
    if k < |fs.open| then fs.(open := fs.open[k := fs.open[k].(removed := true)]) else fs
  }

  // ---------------------------------------------------------------------
  // Each keeps the invariant
  // ---------------------------------------------------------------------

  lemma AllocatedWasFree(used: seq<bool>, cnt: nat, written: bool)
    ensures var (used', r) := Allocate(used, cnt, written);
            && |used'| == |used|
            && (r == None ==> used' == used)
            && (r.Some? ==> r.value + cnt <= |used| && AllBits(used, r.value, cnt, false)
                            && used' == SetBits(used, r.value, cnt, true))
  {
    FirstGroupIsLeast(used, 0, cnt, false);
  }

  /** Setting more bits hurts no inode. */
  lemma MoreUsed(used: seq<bool>, used': seq<bool>, disk: seq<Block>, owned: map<nat, Extent>)
    requires DiskOk(used, disk, owned) && |used'| == |used|
    requires forall x :: 0 <= x < |used| && used[x] ==> used'[x]
    ensures DiskOk(used', disk, owned)
  {
    forall s | s in owned ensures InodeOk(used', disk, s, owned[s]) {
      assert InodeOk(used, disk, s, owned[s]);
    }
  }

  /** A sector that is marked used but belongs to no inode. */
  ghost predicate Reserved(fs: State, s: nat) {
    s < |fs.used| && fs.used[s] && s !in fs.owned && forall t :: t in fs.owned ==> !Occupies(s, t, fs.owned[t])
  }

  lemma NewInode(used: seq<bool>, disk: seq<Block>, owned: map<nat, Extent>, s: nat, e: Extent)
    requires DiskOk(used, disk, owned) && s < |disk| == |used| && used[s]
    requires forall t :: t in owned ==> !Occupies(s, t, owned[t])
    requires e.start + Sectors(e.length) <= |used| && AllBits(used, e.start, Sectors(e.length), false)
    ensures var n := Sectors(e.length);
            DiskOk(SetBits(used, e.start, n, true), Zeroed(disk[s := Header(e)], e.start, n), owned[s := e])
  {
    var n := Sectors(e.length);
    var used', disk', owned' :=
        SetBits(used, e.start, n, true), Zeroed(disk[s := Header(e)], e.start, n), owned[s := e];
    forall t | t in owned ensures t != s && InodeOk(used', disk', t, owned[t]) && Apart(s, e, t, owned[t]) {
      assert InodeOk(used, disk, t, owned[t]) && Occupies(t, t, owned[t]);
    }
    assert InodeOk(used', disk', s, e);
    forall t, u | t in owned' && u in owned' && t != u ensures Apart(t, owned'[t], u, owned'[u]) {
      if t != s && u != s {
        assert Apart(t, owned[t], u, owned[u]);
      }
    }
  }

  lemma InodeCreateKeepsInv(fs: State, s: nat, length: nat, memory: bool, written: bool)
    requires Inv(fs) && |fs.disk| == |fs.used| && Reserved(fs, s)
    ensures var (fs', ok) := InodeCreate(fs, s, length, memory, written);
            && Inv(fs') && |fs'.disk| == |fs'.used| == |fs.used| && fs'.open == fs.open && fs'.dir == fs.dir
            && (!ok ==> fs' == fs)
            && (ok ==> s in fs'.owned && fs'.owned == fs.owned[s := fs'.owned[s]] && fs'.owned[s].length == length)
  {
    AllocatedWasFree(fs.used, Sectors(length), written);
    var (fs', ok) := InodeCreate(fs, s, length, memory, written);
    if ok {
      NewInode(fs.used, fs.disk, fs.owned, s, fs'.owned[s]);
    }
  }

  lemma OpenKeepsInv(fs: State, s: nat, memory: bool)
    requires Inv(fs) && s in fs.owned
    requires forall k :: 0 <= k < |fs.open| && fs.open[k].sector == s ==> !fs.open[k].removed
    ensures var (fs', ok) := InodeOpen(fs, s, memory);
            && Inv(fs') && (ok ==> IsOpen(fs'.open, s)) && (!ok ==> fs' == fs)
            && fs' == fs.(open := fs'.open)
  {
    assert InodeOk(fs.used, fs.disk, s, fs.owned[s]);
    hide DiskOk, DirOk, OpenIndex;
    if OpenIndex(fs.open, s) < |fs.open| {
      CountedUp(fs.open, fs.owned, fs.dir, s);
    } else if memory {
      PushedOpen(fs.open, fs.owned, fs.dir, Open(s, 1, false, HeaderAt(fs.disk, s)));
    }
  }

  /** One more opener of an inode that is open. */
  lemma CountedUp(open: seq<Open>, owned: map<nat, Extent>, dir: seq<Entry>, s: nat)
    requires OpenOk(open, owned) && RemovedOk(open, dir) && OpenIndex(open, s) < |open|
    ensures var k := OpenIndex(open, s);
            var open' := open[k := open[k].(cnt := open[k].cnt + 1)];
            OpenOk(open', owned) && RemovedOk(open', dir) && IsOpen(open', s)
  {
    var k := OpenIndex(open, s);
    var open' := open[k := open[k].(cnt := open[k].cnt + 1)];
    assert open'[k].sector == s;
    assert forall i :: 0 <= i < |open| ==>
             open'[i].sector == open[i].sector && open'[i].removed == open[i].removed;
  }

  /** An inode that was not open comes to the front of the list. */
  lemma PushedOpen(open: seq<Open>, owned: map<nat, Extent>, dir: seq<Entry>, o: Open)
    requires OpenOk(open, owned) && RemovedOk(open, dir) && OpenIndex(open, o.sector) == |open|
    requires o.cnt > 0 && !o.removed && o.sector in owned && o.data == owned[o.sector]
    ensures OpenOk([o] + open, owned) && RemovedOk([o] + open, dir) && IsOpen([o] + open, o.sector)
  {
    hide Names;
    var open' := [o] + open;
    assert open'[0].sector == o.sector;
    forall j | 1 <= j < |open'| ensures open'[j] == open[j - 1] {
    }
    forall k, i: nat | 0 <= k < |open'| && open'[k].removed ensures !Names(dir, i, open'[k].sector) {
      assert open'[k] == open[k - 1];
    }
  }

  /** The sectors of an existing inode are marked used, as free_map_release()
      asserts before each of its two calls, and freeing them touches no other inode. */
  lemma ReleaseInode(used: seq<bool>, disk: seq<Block>, owned: map<nat, Extent>, s: nat)
    requires DiskOk(used, disk, owned) && s in owned
    ensures var n := Sectors(owned[s].length);
            && s + 1 <= |used| && AllBits(used, s, 1, true)
            && owned[s].start + n <= |used| && AllBits(Release(used, s, 1), owned[s].start, n, true)
            && DiskOk(Release(Release(used, s, 1), owned[s].start, n), disk, owned - {s})
  {
    var e, n := owned[s], Sectors(owned[s].length);
    assert InodeOk(used, disk, s, e);
    assert Occupies(s, s, e);
    forall x: nat | e.start <= x < e.start + n ensures x != s && used[x] {
      assert Occupies(x, s, e);
    }
    var used', owned' := Release(Release(used, s, 1), e.start, n), owned - {s};
    forall t | t in owned' ensures InodeOk(used', disk, t, owned[t]) {
      assert InodeOk(used, disk, t, owned[t]) && Apart(s, e, t, owned[t]);
      forall x: nat | Occupies(x, t, owned[t]) ensures x < |used'| && used'[x] {
        assert !Occupies(x, s, e);
      }
    }
    forall t, u | t in owned' && u in owned' && t != u ensures Apart(t, owned'[t], u, owned'[u]) {
      assert Apart(t, owned[t], u, owned[u]);
    }
  }

  /** The inode at position k loses its last opener after it was removed. */
  predicate LastClose(fs: State, k: nat) {
    k < |fs.open| && fs.open[k].cnt == 1 && fs.open[k].removed
  }

  lemma WithoutIndex<T>(s: seq<T>, k: nat, i: nat)
    requires k < |s| && i < |s| - 1
    ensures Without(s, k)[i] == if i < k then s[i] else s[i + 1]
  {
  }

  lemma OpenWithout(open: seq<Open>, owned: map<nat, Extent>, dir: seq<Entry>, k: nat)
    requires OpenOk(open, owned) && RemovedOk(open, dir) && k < |open|
    ensures OpenOk(Without(open, k), owned - {open[k].sector}) && RemovedOk(Without(open, k), dir)
    ensures OpenOk(Without(open, k), owned)
    ensures !IsOpen(Without(open, k), open[k].sector)
  {
    var open' := Without(open, k);
    forall i | 0 <= i < |open'| ensures open'[i] == open[if i < k then i else i + 1] {
      WithoutIndex(open, k, i);
    }
    forall i, j: nat | 0 <= i < |open'| && open'[i].removed ensures !Names(dir, j, open'[i].sector) {
      assert open[if i < k then i else i + 1].removed;
    }
  }

  lemma LastCloseKeepsInv(fs: State, k: nat)
    requires Inv(fs) && k < |fs.open| && fs.open[k].cnt == 1
    ensures Inv(InodeClose(fs, k)) && InodeClose(fs, k).open == Without(fs.open, k)
    ensures InodeClose(fs, k).owned == if fs.open[k].removed then fs.owned - {fs.open[k].sector} else fs.owned
  {
    var o := fs.open[k];
    OpenWithout(fs.open, fs.owned, fs.dir, k);
    if o.removed {
      ReleaseInode(fs.used, fs.disk, fs.owned, o.sector);
      forall i | 0 <= i < |fs.dir| && fs.dir[i].inUse ensures fs.dir[i].sector != o.sector {
        assert !Names(fs.dir, i, o.sector);
      }
    }
  }

  /** Closing keeps the invariant.  Exactly the last close of a removed inode ends its
      existence; no other changes the free map. */
  lemma CloseKeepsInv(fs: State, k: nat)
    requires Inv(fs) && k < |fs.open|
    ensures var fs', s := InodeClose(fs, k), fs.open[k].sector;
            && Inv(fs') && fs'.dir == fs.dir && fs'.disk == fs.disk && |fs'.used| == |fs.used|
            && fs'.owned == (if LastClose(fs, k) then fs.owned - {s} else fs.owned)
            && (IsOpen(fs'.open, s) <==> fs.open[k].cnt > 1)
            && (!LastClose(fs, k) ==> fs'.used == fs.used)
  {
    var fs', o := InodeClose(fs, k), fs.open[k];
    if o.cnt == 1 {
      LastCloseKeepsInv(fs, k);
      OpenWithout(fs.open, fs.owned, fs.dir, k);
    } else {
      assert fs'.open[k].sector == o.sector;
      assert forall i :: 0 <= i < |fs.open| ==>
             fs'.open[i].sector == fs.open[i].sector && fs'.open[i].removed == fs.open[i].removed;
    }
  }

  // ---------------------------------------------------------------------
  // directory.c
  // ---------------------------------------------------------------------

  /** lookup().  Each entry is read through a bounce buffer; after `seen` reads one
      fails for lack of memory, and the search ends as it does at end of file. */
  function Lookup(dir: seq<Entry>, name: string, seen: nat): (r: Option<nat>)
    ensures r.Some? ==> r.value < |dir| && r.value < seen && dir[r.value].inUse && dir[r.value].name == name
    ensures forall i :: 0 <= i < |dir| && i < seen && (r.Some? ==> i < r.value) ==>
            !(dir[i].inUse && dir[i].name == name)
  {
    if dir == [] || seen == 0 then None
    else if dir[0].inUse && dir[0].name == name then Some(0)
    else
      var r := Lookup(dir[1..], name, seen - 1);
      if r == None then None else Some(1 + r.value)
  }

  /** The slot dir_add() settles on: the first free one, or where the reads ended. */
  function FreeSlot(dir: seq<Entry>, seen: nat): (i: nat)
    ensures i <= |dir| && i <= seen && forall j :: 0 <= j < i ==> dir[j].inUse
    ensures i < |dir| && i < seen ==> !dir[i].inUse
  {
    if dir == [] || seen == 0 || !dir[0].inUse then 0 else 1 + FreeSlot(dir[1..], seen - 1)
  }

  /** dir_add(): `wrote` says whether the entry could be written. */
  function DirAdd(dir: seq<Entry>, name: string, s: nat, seen: nat, seenFree: nat, wrote: bool): (seq<Entry>, bool) {
    if !ValidName(name) || Lookup(dir, name, seen).Some? then (dir, false)
    else
      var i := FreeSlot(dir, seenFree);
      if i < |dir| && wrote then (dir[i := Entry(true, s, name)], true) else (dir, false)
  }

  /** dir_remove() once the entry is erased. */
  ghost function Erased(fs: State, i: nat, k: nat): State
    requires i < |fs.dir|
  {
    InodeRemove(fs.(dir := fs.dir[i := fs.dir[i].(inUse := false)]), k)
  }

  /** dir_remove() on the state; the directory is open. */
  ghost function DirRemove(fs: State, name: string, seen: nat, memory: bool, wrote: bool): (State, bool) {
    var i := Lookup(fs.dir, name, seen);
    if i == None then (fs, false) else RemoveAt(fs, i.value, memory, wrote)
  }

  /** dir_remove() once the entry is found. */
  ghost function RemoveAt(fs: State, i: nat, memory: bool, wrote: bool): (State, bool)
    requires i < |fs.dir|
  {
    var s := fs.dir[i].sector;
    var (fs1, ok) := InodeOpen(fs, s, memory);
    if !ok then (fs, false)
    else
      var k := OpenIndex(fs1.open, s);
      if !wrote then (InodeClose(fs1, k), false) else (InodeClose(Erased(fs1, i, k), k), true)
  }

  lemma DirAddKeepsInv(fs: State, name: string, s: nat, seen: nat, seenFree: nat, wrote: bool)
    requires Inv(fs) && s in fs.owned && s > ROOT_DIR_SECTOR && !IsOpen(fs.open, s)
    requires forall i: nat :: !Names(fs.dir, i, s)
    ensures Inv(fs.(dir := DirAdd(fs.dir, name, s, seen, seenFree, wrote).0))
  {
    var dir' := DirAdd(fs.dir, name, s, seen, seenFree, wrote).0;
    forall i | 0 <= i < |fs.dir| && fs.dir[i].inUse ensures fs.dir[i].sector != s {
      assert !Names(fs.dir, i, s);
    }
    forall k, i: nat | 0 <= k < |fs.open| && fs.open[k].removed ensures !Names(dir', i, fs.open[k].sector) {
      assert !Names(fs.dir, i, fs.open[k].sector);
    }
  }

  lemma OpenPosition(open: seq<Open>, s: nat)
    requires IsOpen(open, s)
    ensures OpenIndex(open, s) < |open| && open[OpenIndex(open, s)].sector == s
  {
  }

  lemma RemoveKeepsInv(fs: State, i: nat, k: nat)
    requires Inv(fs) && i < |fs.dir| && fs.dir[i].inUse && k < |fs.open| && fs.open[k].sector == fs.dir[i].sector
    ensures Inv(Erased(fs, i, k))
  {
    var fs' := Erased(fs, i, k);
    var dir' := fs'.dir;
    assert forall j :: 0 <= j < |fs.open| ==> fs'.open[j].sector == fs.open[j].sector;
    forall j, m: nat | 0 <= j < |fs'.open| && fs'.open[j].removed ensures !Names(dir', m, fs'.open[j].sector) {
      if j != k {
        assert !Names(fs.dir, m, fs.open[j].sector);
      }
    }
  }

  /** The inode an entry names is open at most as a live one. */
  lemma NamedNotRemoved(fs: State, i: nat)
    requires Inv(fs) && i < |fs.dir| && fs.dir[i].inUse
    ensures fs.dir[i].sector in fs.owned && fs.dir[i].sector > ROOT_DIR_SECTOR
    ensures forall k :: 0 <= k < |fs.open| && fs.open[k].sector == fs.dir[i].sector ==> !fs.open[k].removed
  {
    assert Names(fs.dir, i, fs.dir[i].sector);
  }

  lemma DirRemoveKeepsInv(fs: State, name: string, seen: nat, memory: bool, wrote: bool)
    requires Inv(fs)
    ensures Inv(DirRemove(fs, name, seen, memory, wrote).0)
  {
    var i := Lookup(fs.dir, name, seen);
    if i.Some? {
      var s := fs.dir[i.value].sector;
      NamedNotRemoved(fs, i.value);
      OpenKeepsInv(fs, s, memory);
      var (fs1, ok) := InodeOpen(fs, s, memory);
      if ok {
        OpenPosition(fs1.open, s);
        var k := OpenIndex(fs1.open, s);
        if !wrote {
          CloseKeepsInv(fs1, k);
        } else {
          RemoveKeepsInv(fs1, i.value, k);
          CloseKeepsInv(Erased(fs1, i.value, k), k);
        }
      }
    }
  }

  // ---------------------------------------------------------------------
  // filesys.c
  // ---------------------------------------------------------------------

  /** Close the inode of a sector, if it is open. */
  ghost function CloseSector(fs: State, s: nat): State {
    InodeClose(fs, OpenIndex(fs.open, s))
  }

  /** dir_open_root(): memory for the inode and for the struct dir. */
  ghost function OpenRoot(fs: State, inodeMemory: bool, dirMemory: bool): (State, bool) {
    var (fs1, ok) := InodeOpen(fs, ROOT_DIR_SECTOR, inodeMemory);
    if !ok then (fs, false)
    else if !dirMemory then (CloseSector(fs1, ROOT_DIR_SECTOR), false)
    else (fs1, true)
  }

  datatype CreateEnv = CreateEnv(map1: bool, memory: bool, map2: bool, seen: nat, seenFree: nat, wrote: bool)

  /** filesys_create() once the root directory is open. */
  ghost function CreateIn(fs: State, name: string, length: nat, env: CreateEnv): (State, bool) {
    var (used1, r) := Allocate(fs.used, 1, env.map1);
    if r == None || r.value >= |fs.disk| || r.value >= |fs.used| then (fs, false)
    else CreateAt(fs.(used := used1), r.value, name, length, env)
  }

  /** filesys_create() once it has a sector for the inode. */
  ghost function CreateAt(fs: State, s: nat, name: string, length: nat, env: CreateEnv): (State, bool)
    requires s < |fs.disk|
  {
    var (fs2, created) := InodeCreate(fs, s, length, env.memory, env.map2);
    if !created then (if s != 0 && s < |fs2.used| then fs2.(used := Release(fs2.used, s, 1)) else fs2, false)
    else
      var (dir', added) := DirAdd(fs.dir, name, s, env.seen, env.seenFree, env.wrote);
      if added then (fs2.(dir := dir'), true)
      else if s != 0 && s < |fs2.used| then (fs2.(used := Release(fs2.used, s, 1), owned := fs2.owned - {s}), false)
      else (fs2, false)
  }

  ghost predicate SizesOk(fs: State) {
    |fs.used| == |fs.disk|
  }

  /** A sector that is free belongs to no inode, so one just allocated is reserved. */
  lemma AllocatedReserved(fs: State, r: nat)
    requires Inv(fs) && r < |fs.used| && !fs.used[r]
    ensures r > ROOT_DIR_SECTOR && Reserved(fs.(used := SetBits(fs.used, r, 1, true)), r)
  {
    assert InodeOk(fs.used, fs.disk, 0, fs.owned[0]) && Occupies(0, 0, fs.owned[0]);
    assert InodeOk(fs.used, fs.disk, 1, fs.owned[1]) && Occupies(1, 1, fs.owned[1]);
    forall t | t in fs.owned ensures !Occupies(r, t, fs.owned[t]) && t != r {
      assert InodeOk(fs.used, fs.disk, t, fs.owned[t]);
      assert Occupies(t, t, fs.owned[t]);
    }
  }

  lemma UndoReserve(used: seq<bool>, r: nat)
    requires r < |used| && !used[r]
    ensures Release(SetBits(used, r, 1, true), r, 1) == used
  {
  }

  /** Giving up a sector that is no inode's, or forgetting an inode without its data
      sectors, hurts no other inode. */
  lemma ForgetInode(used: seq<bool>, disk: seq<Block>, owned: map<nat, Extent>, s: nat)
    requires DiskOk(used, disk, owned) && s in owned
    ensures s < |used| && DiskOk(Release(used, s, 1), disk, owned - {s})
  {
    assert InodeOk(used, disk, s, owned[s]);
    var used', owned' := Release(used, s, 1), owned - {s};
    forall t | t in owned' ensures InodeOk(used', disk, t, owned'[t]) {
      assert InodeOk(used, disk, t, owned[t]) && Apart(s, owned[s], t, owned[t]) && Occupies(s, s, owned[s]);
    }
    forall t, u | t in owned' && u in owned' && t != u ensures Apart(t, owned'[t], u, owned'[u]) {
      assert Apart(t, owned[t], u, owned[u]);
    }
  }

  lemma CreateKeepsInv(fs: State, name: string, length: nat, env: CreateEnv)
    requires Inv(fs) && SizesOk(fs)
    ensures var fs' := CreateIn(fs, name, length, env).0; Inv(fs') && SizesOk(fs') && fs'.open == fs.open
  {
    AllocatedWasFree(fs.used, 1, env.map1);
    var (used1, r) := Allocate(fs.used, 1, env.map1);
    if r.Some? {
      var s := r.value;
      AllocatedReserved(fs, s);
      var fs1 := fs.(used := used1);
      MoreUsed(fs.used, used1, fs.disk, fs.owned);
      InodeCreateKeepsInv(fs1, s, length, env.memory, env.map2);
      var (fs2, created) := InodeCreate(fs1, s, length, env.memory, env.map2);
      if !created {
        UndoReserve(fs.used, s);
      } else {
        NewSector(fs, fs2, s);
        DirAddKeepsInv(fs2, name, s, env.seen, env.seenFree, env.wrote);
        ForgetInode(fs2.used, fs2.disk, fs2.owned, s);
        assert fs2.owned - {s} == fs.owned;
      }
    }
  }

  /** An inode just created is neither open nor named. */
  lemma NewSector(fs: State, fs2: State, s: nat)
    requires Inv(fs) && s !in fs.owned && fs2.open == fs.open && fs2.dir == fs.dir
    ensures !IsOpen(fs2.open, s) && forall i: nat :: !Names(fs2.dir, i, s)
  {
  }

  /** filesys_create() */
  ghost function Create(fs: State, name: string, length: nat, rootMemory: bool, dirMemory: bool,
    env: CreateEnv): (State, bool) {
    var (fs1, ok) := OpenRoot(fs, rootMemory, dirMemory);
    if !ok then (fs1, false)
    else
      var (fs2, success) := CreateIn(fs1, name, length, env);
      (CloseSector(fs2, ROOT_DIR_SECTOR), success)
  }

  /** filesys_remove() once the root directory is open. */
  ghost function RemoveIn(fs: State, name: string, seen: nat, memory: bool, wrote: bool): (State, bool) {
    var (fs1, success) := DirRemove(fs, name, seen, memory, wrote);
    (CloseSector(fs1, ROOT_DIR_SECTOR), success)
  }

  /** filesys_remove() */
  ghost function Remove(fs: State, name: string, rootMemory: bool, dirMemory: bool, seen: nat, memory: bool,
    wrote: bool): (State, bool) {
    var (fs1, ok) := OpenRoot(fs, rootMemory, dirMemory);
    if !ok then (fs1, false) else RemoveIn(fs1, name, seen, memory, wrote)
  }

  /** dir_lookup() followed by file_open(): the sector of the file opened. */
  ghost function LookupOpen(fs: State, name: string, seen: nat, memory: bool): (State, Option<nat>) {
    var i := Lookup(fs.dir, name, seen);
    if i == None then (fs, None)
    else
      var (fs1, ok) := InodeOpen(fs, fs.dir[i.value].sector, memory);
      (fs1, if ok then Some(fs.dir[i.value].sector) else None)
  }

  /** filesys_open() once the root directory is open: the struct file is allocated
      after the directory is closed. */
  ghost function OpenIn(fs: State, name: string, seen: nat, memory: bool, fileMemory: bool): (State, Option<nat>) {
    var (fs1, s) := LookupOpen(fs, name, seen, memory);
    var fs2 := CloseSector(fs1, ROOT_DIR_SECTOR);
    if s == None || fileMemory then (fs2, s) else (CloseSector(fs2, s.value), None)
  }

  /** filesys_open() */
  ghost function OpenFile(fs: State, name: string, rootMemory: bool, dirMemory: bool, seen: nat, memory: bool,
    fileMemory: bool)
    : (State, Option<nat>)
  {
    var (fs1, ok) := OpenRoot(fs, rootMemory, dirMemory);
    if !ok then (fs1, None) else OpenIn(fs1, name, seen, memory, fileMemory)
  }

  lemma CloseSectorKeepsInv(fs: State, s: nat)
    requires Inv(fs)
    ensures Inv(CloseSector(fs, s)) && CloseSector(fs, s).dir == fs.dir && |CloseSector(fs, s).used| == |fs.used|
    ensures CloseSector(fs, s).disk == fs.disk
    ensures CloseSector(fs, s).owned ==
            if LastClose(fs, OpenIndex(fs.open, s)) then fs.owned - {s} else fs.owned
  {
    var k := OpenIndex(fs.open, s);
    if k < |fs.open| {
      CloseKeepsInv(fs, k);
    }
  }

  lemma RootNotRemoved(fs: State)
    requires Inv(fs)
    ensures forall k :: 0 <= k < |fs.open| && fs.open[k].sector == ROOT_DIR_SECTOR ==> !fs.open[k].removed
  {
  }

  lemma OpenRootKeepsInv(fs: State, inodeMemory: bool, dirMemory: bool)
    requires Inv(fs)
    ensures var (fs', ok) := OpenRoot(fs, inodeMemory, dirMemory);
            Inv(fs') && (ok ==> IsOpen(fs'.open, ROOT_DIR_SECTOR)) && SameFiles(fs, fs')
  {
    RootNotRemoved(fs);
    OpenKeepsInv(fs, ROOT_DIR_SECTOR, inodeMemory);
    var (fs1, ok) := InodeOpen(fs, ROOT_DIR_SECTOR, inodeMemory);
    if ok && !dirMemory {
      RootNotRemoved(fs1);
      CloseSectorKeepsInv(fs1, ROOT_DIR_SECTOR);
      CloseRoot(fs1);
    }
  }

  /** Everything but the list of open inodes. */
  ghost predicate SameFiles(fs: State, fs': State) {
    fs' == fs.(open := fs'.open)
  }

  lemma CloseRoot(fs: State)
    requires Inv(fs)
    ensures SameFiles(fs, CloseSector(fs, ROOT_DIR_SECTOR))
  {
    RootNotRemoved(fs);
    CloseSectorKeepsInv(fs, ROOT_DIR_SECTOR);
  }

  lemma CreateFileKeepsInv(fs: State, name: string, length: nat, rootMemory: bool, dirMemory: bool, env: CreateEnv)
    requires Inv(fs) && SizesOk(fs)
    ensures var fs' := Create(fs, name, length, rootMemory, dirMemory, env).0; Inv(fs') && SizesOk(fs')
  {
    OpenRootKeepsInv(fs, rootMemory, dirMemory);
    var (fs1, ok) := OpenRoot(fs, rootMemory, dirMemory);
    if ok {
      CreateKeepsInv(fs1, name, length, env);
      CloseSectorKeepsInv(CreateIn(fs1, name, length, env).0, ROOT_DIR_SECTOR);
    }
  }

  lemma CloseSizes(fs: State, k: nat)
    ensures |InodeClose(fs, k).used| == |fs.used| && |InodeClose(fs, k).disk| == |fs.disk|
  {
  }

  lemma DirRemoveSizes(fs: State, name: string, seen: nat, memory: bool, wrote: bool)
    requires SizesOk(fs)
    ensures SizesOk(DirRemove(fs, name, seen, memory, wrote).0)
  {
    var i := Lookup(fs.dir, name, seen);
    if i.Some? {
      var s := fs.dir[i.value].sector;
      var fs1 := InodeOpen(fs, s, memory).0;
      var k := OpenIndex(fs1.open, s);
      CloseSizes(fs1, k);
      CloseSizes(Erased(fs1, i.value, k), k);
    }
  }

  lemma RemoveFileKeepsInv(fs: State, name: string, rootMemory: bool, dirMemory: bool, seen: nat, memory: bool,
      wrote: bool)
    requires Inv(fs) && SizesOk(fs)
    ensures var fs' := Remove(fs, name, rootMemory, dirMemory, seen, memory, wrote).0; Inv(fs') && SizesOk(fs')
  {
    OpenRootKeepsInv(fs, rootMemory, dirMemory);
    var (fs1, ok) := OpenRoot(fs, rootMemory, dirMemory);
    if ok {
      DirRemoveKeepsInv(fs1, name, seen, memory, wrote);
      DirRemoveSizes(fs1, name, seen, memory, wrote);
      CloseSectorKeepsInv(DirRemove(fs1, name, seen, memory, wrote).0, ROOT_DIR_SECTOR);
    }
  }

  lemma LookupOpenKeepsInv(fs: State, name: string, seen: nat, memory: bool)
    requires Inv(fs)
    ensures var (fs', s) := LookupOpen(fs, name, seen, memory);
            Inv(fs') && SameFiles(fs, fs') && (s.Some? ==> IsOpen(fs'.open, s.value) && s.value in fs.owned)
  {
    var i := Lookup(fs.dir, name, seen);
    if i.Some? {
      NamedNotRemoved(fs, i.value);
      OpenKeepsInv(fs, fs.dir[i.value].sector, memory);
    }
  }

  lemma OpenFileKeepsInv(fs: State, name: string, rootMemory: bool, dirMemory: bool, seen: nat, memory: bool,
      fileMemory: bool)
    requires Inv(fs) && SizesOk(fs)
    ensures var fs' := OpenFile(fs, name, rootMemory, dirMemory, seen, memory, fileMemory).0; Inv(fs') && SizesOk(fs')
  {
    OpenRootKeepsInv(fs, rootMemory, dirMemory);
    var (fs1, ok) := OpenRoot(fs, rootMemory, dirMemory);
    if ok {
      LookupOpenKeepsInv(fs1, name, seen, memory);
      var (fs2, s) := LookupOpen(fs1, name, seen, memory);
      CloseSectorKeepsInv(fs2, ROOT_DIR_SECTOR);
      if s.Some? {
        CloseSectorKeepsInv(CloseSector(fs2, ROOT_DIR_SECTOR), s.value);
      }
    }
  }

  // ---------------------------------------------------------------------
  // Runs
  // ---------------------------------------------------------------------

  /** inode_reopen() */
  function Reopen(fs: State, k: nat): State {
    if k < |fs.open| then fs.(open := fs.open[k := fs.open[k].(cnt := fs.open[k].cnt + 1)]) else fs
  }

  /** A device before it is formatted, with the marks of free_map_init(). */
  function Blank(disk: seq<Block>): State {
    State(seq(|disk|, i => i < 2), disk, [], [], map[])
  }

  /** do_format(), free_map_open() and the marks of free_map_init(), on a disk with any
      old content; None where they panic. */
  ghost function Format(disk: seq<Block>): Option<State> {
    if |disk| < 2 then None
    else
      var fs := Blank(disk);
      var (fs1, ok1) := InodeCreate(fs, FREE_MAP_SECTOR, 4 * ElemCnt(|disk|), true, true);
      var (fs2, ok2) := InodeCreate(fs1, ROOT_DIR_SECTOR, 16 * 20, true, true);
      if !ok1 || !ok2 then None
      else Some(InodeOpen(fs2.(dir := seq(16, _ => Entry(false, 0, ""))), FREE_MAP_SECTOR, true).0)
  }

  datatype Call =
    | CreateCall(name: string, length: nat, rootMemory: bool, dirMemory: bool, env: CreateEnv)
    | OpenCall(name: string, rootMemory: bool, dirMemory: bool, seen: nat, memory: bool, fileMemory: bool)
    | RemoveCall(name: string, rootMemory: bool, dirMemory: bool, seen: nat, memory: bool, wrote: bool)
    | ReopenCall(s: nat)
    | CloseCall(s: nat)

  /** Only an open inode is reopened or closed. */
  ghost predicate Legal(fs: State, c: Call) {
    (c.ReopenCall? ==> IsOpen(fs.open, c.s)) && (c.CloseCall? ==> IsOpen(fs.open, c.s))
  }

  ghost function Step(fs: State, c: Call): State {
    match c
    case CreateCall(name, length, rootMemory, dirMemory, env) => Create(fs, name, length, rootMemory, dirMemory, env).0
    case OpenCall(name, rootMemory, dirMemory, seen, memory, fileMemory) =>
      OpenFile(fs, name, rootMemory, dirMemory, seen, memory, fileMemory).0
    case RemoveCall(name, rootMemory, dirMemory, seen, memory, wrote) =>
      Remove(fs, name, rootMemory, dirMemory, seen, memory, wrote).0
    case ReopenCall(s) => Reopen(fs, OpenIndex(fs.open, s))
    case CloseCall(s) => CloseSector(fs, s)
  }

  lemma StepKeepsInv(fs: State, c: Call)
    requires Inv(fs) && SizesOk(fs) && Legal(fs, c)
    ensures Inv(Step(fs, c)) && SizesOk(Step(fs, c))
  {
    hide DiskOk, OpenOk, DirOk, RemovedOk, Create, OpenFile, Remove, CloseSector;
    match c
    case CreateCall(name, length, rootMemory, dirMemory, env) =>
      CreateFileKeepsInv(fs, name, length, rootMemory, dirMemory, env);
    case OpenCall(name, rootMemory, dirMemory, seen, memory, fileMemory) =>
      OpenFileKeepsInv(fs, name, rootMemory, dirMemory, seen, memory, fileMemory);
    case RemoveCall(name, rootMemory, dirMemory, seen, memory, wrote) =>
      RemoveFileKeepsInv(fs, name, rootMemory, dirMemory, seen, memory, wrote);
    case ReopenCall(s) =>
      ReopenKeepsInv(fs, OpenIndex(fs.open, s));
    case CloseCall(s) =>
      CloseSectorKeepsInv(fs, s);
  }

  lemma ReopenKeepsInv(fs: State, k: nat)
    requires Inv(fs) && k < |fs.open|
    ensures Inv(Reopen(fs, k))
  {
    var fs' := Reopen(fs, k);
    assert forall i :: 0 <= i < |fs.open| ==>
           fs'.open[i].sector == fs.open[i].sector && fs'.open[i].removed == fs.open[i].removed;
  }

  ghost predicate LegalRun(fs: State, run: seq<Call>)
    decreases |run|
  {
    run != [] ==> Legal(fs, run[0]) && LegalRun(Step(fs, run[0]), run[1..])
  }

  ghost function After(fs: State, run: seq<Call>): State
    decreases |run|
  {
    if run == [] then fs else After(Step(fs, run[0]), run[1..])
  }

  lemma {:induction false} RunKeepsInv(fs: State, run: seq<Call>)
    requires Inv(fs) && SizesOk(fs) && LegalRun(fs, run)
    ensures Inv(After(fs, run))
    decreases |run|
  {
    if run != [] {
      StepKeepsInv(fs, run[0]);
      RunKeepsInv(Step(fs, run[0]), run[1..]);
    }
  }

  lemma FormatInv(disk: seq<Block>)
    ensures var r := Format(disk); r.Some? ==> Inv(r.value) && SizesOk(r.value)
  {
    if Format(disk).Some? {
      var fs := Blank(disk);
      var n := 4 * ElemCnt(|disk|);
      AllocatedWasFree(fs.used, Sectors(n), true);
      var fs1 := InodeCreate(fs, FREE_MAP_SECTOR, n, true, true).0;
      NewInode(fs.used, fs.disk, map[], FREE_MAP_SECTOR, fs1.owned[FREE_MAP_SECTOR]);
      AllocatedWasFree(fs1.used, Sectors(320), true);
      var fs2 := InodeCreate(fs1, ROOT_DIR_SECTOR, 320, true, true).0;
      assert !Occupies(ROOT_DIR_SECTOR, FREE_MAP_SECTOR, fs1.owned[FREE_MAP_SECTOR]) by {
        assert fs.used[ROOT_DIR_SECTOR];
      }
      NewInode(fs1.used, fs1.disk, fs1.owned, ROOT_DIR_SECTOR, fs2.owned[ROOT_DIR_SECTOR]);
      var fs3 := fs2.(dir := seq(16, _ => Entry(false, 0, "")));
      assert Inv(fs3);
      OpenKeepsInv(fs3, FREE_MAP_SECTOR, true);
    }
  }

  /** In any run from a formatted disk: an inode that is open or named exists, its
      header can be read back from the disk, all its sectors are marked used, and it
      shares none with another such inode. */
  lemma AnyRun(disk: seq<Block>, run: seq<Call>, s: nat, t: nat, x: nat)
    requires Format(disk).Some? && LegalRun(Format(disk).value, run)
    requires var fs := After(Format(disk).value, run); InUse(fs, s) && InUse(fs, t)
    ensures var fs := After(Format(disk).value, run);
            && s < |fs.disk| && fs.disk[s].Header? && t < |fs.disk| && fs.disk[t].Header?
            && (Occupies(x, s, fs.disk[s].data) ==> x < |fs.used| && fs.used[x])
            && (Occupies(x, s, fs.disk[s].data) && Occupies(x, t, fs.disk[t].data) ==> s == t)
  {
    FormatInv(disk);
    RunKeepsInv(Format(disk).value, run);
    var fs := After(Format(disk).value, run);
    assert InodeOk(fs.used, fs.disk, s, fs.owned[s]) && InodeOk(fs.used, fs.disk, t, fs.owned[t]);
    if s != t {
      assert Apart(s, fs.owned[s], t, fs.owned[t]);
    }
  }

  /** ... and it has one in-memory inode at most. */
  lemma OneInodePerSector(disk: seq<Block>, run: seq<Call>)
    requires Format(disk).Some? && LegalRun(Format(disk).value, run)
    ensures var open := After(Format(disk).value, run).open;
            && (forall k :: 0 <= k < |open| ==> open[k].cnt > 0)
            && (forall j, k :: 0 <= j < k < |open| ==> open[j].sector != open[k].sector)
  {
    FormatInv(disk);
    RunKeepsInv(Format(disk).value, run);
  }

  /** An inode that a program or the file system itself can reach. */
  ghost predicate InUse(fs: State, s: nat) {
    s == FREE_MAP_SECTOR || s == ROOT_DIR_SECTOR || IsOpen(fs.open, s) || exists i: nat :: Names(fs.dir, i, s)
  }

  // ---------------------------------------------------------------------
  // When sectors are released
  // ---------------------------------------------------------------------

  lemma EraseReleases(fs: State, fs1: State, i: nat)
    requires Inv(fs) && Inv(fs1) && SameFiles(fs, fs1) && i < |fs.dir| && fs.dir[i].inUse
    requires var s := fs.dir[i].sector;
             IsOpen(fs1.open, s) && (fs1.open[OpenIndex(fs1.open, s)].cnt == 1 <==> !IsOpen(fs.open, s))
    ensures var s := fs.dir[i].sector;
            InodeClose(Erased(fs1, i, OpenIndex(fs1.open, s)), OpenIndex(fs1.open, s)).owned ==
            if IsOpen(fs.open, s) then fs.owned else fs.owned - {s}
  {
    var s := fs.dir[i].sector;
    OpenPosition(fs1.open, s);
    var k := OpenIndex(fs1.open, s);
    RemoveKeepsInv(fs1, i, k);
    CloseKeepsInv(Erased(fs1, i, k), k);
  }

  lemma DirRemoveReleases(fs: State, name: string, seen: nat, memory: bool, wrote: bool)
    requires Inv(fs)
    ensures var ((fs', ok), i) := (DirRemove(fs, name, seen, memory, wrote), Lookup(fs.dir, name, seen));
            && (!ok ==> fs'.owned == fs.owned)
            && (ok ==> i.Some? && var s := fs.dir[i.value].sector;
                       fs'.owned == if IsOpen(fs.open, s) then fs.owned else fs.owned - {s})
  {
    var i := Lookup(fs.dir, name, seen);
    if i.Some? {
      var s := fs.dir[i.value].sector;
      NamedNotRemoved(fs, i.value);
      OpenKeepsInv(fs, s, memory);
      var (fs1, ok) := InodeOpen(fs, s, memory);
      if ok {
        CountOpened(fs, s, memory);
        if wrote {
          EraseReleases(fs, fs1, i.value);
        } else {
          NamedNotRemoved(fs1, i.value);
          CloseSectorKeepsInv(fs1, s);
        }
      }
    }
  }

  /** An inode has one opener after inode_open() exactly if it was not open before. */
  lemma CountOpened(fs: State, s: nat, memory: bool)
    requires Inv(fs) && InodeOpen(fs, s, memory).1
    ensures var fs1 := InodeOpen(fs, s, memory).0;
            && IsOpen(fs1.open, s) && (fs1.open[OpenIndex(fs1.open, s)].cnt == 1 <==> !IsOpen(fs.open, s))
  {
    var fs1, k := InodeOpen(fs, s, memory).0, OpenIndex(fs.open, s);
    if k < |fs.open| {
      assert fs1.open[k].sector == s;
      OpenPosition(fs1.open, s);
      assert OpenIndex(fs1.open, s) == k;
    } else {
      assert fs1.open[0].sector == s;
    }
  }

  /** An inode ceases to exist in exactly two cases: its last opener closes it after
      it was removed, or it is removed while nobody has it open.  StepFrees in module
      Accounting says that its sectors, and no others, are marked free then. */
  lemma ReleasedExactly(fs: State, c: Call, s: nat)
    requires Inv(fs) && SizesOk(fs) && Legal(fs, c) && s in fs.owned
    ensures s !in Step(fs, c).owned <==>
            || (c == CloseCall(s) && LastClose(fs, OpenIndex(fs.open, s)))
            || (c.RemoveCall?
                && (c.rootMemory || IsOpen(fs.open, ROOT_DIR_SECTOR)) && c.dirMemory && c.memory && c.wrote
                && Lookup(fs.dir, c.name, c.seen).Some? && fs.dir[Lookup(fs.dir, c.name, c.seen).value].sector == s
                && !IsOpen(fs.open, s))
  {
    hide DiskOk, OpenOk, DirOk, RemovedOk, Create, OpenFile, Remove, CloseSector;
    match c
    case CreateCall(name, length, rootMemory, dirMemory, env) =>
      CreateOwns(fs, name, length, rootMemory, dirMemory, env);
    case OpenCall(name, rootMemory, dirMemory, seen, memory, fileMemory) =>
      OpenOwns(fs, name, rootMemory, dirMemory, seen, memory, fileMemory);
    case RemoveCall(name, rootMemory, dirMemory, seen, memory, wrote) =>
      RemoveOwns(fs, name, rootMemory, dirMemory, seen, memory, wrote);
      RemoveSucceeds(fs, name, rootMemory, dirMemory, seen, memory, wrote);
    case ReopenCall(t) =>
    case CloseCall(t) =>
      CloseSectorKeepsInv(fs, t);
      OpenPosition(fs.open, t);
  }

  /** What filesys_remove() needs to succeed. */
  lemma RemoveSucceeds(fs: State, name: string, rootMemory: bool, dirMemory: bool, seen: nat, memory: bool, wrote: bool)
    requires Inv(fs)
    ensures var i := Lookup(fs.dir, name, seen);
            Remove(fs, name, rootMemory, dirMemory, seen, memory, wrote).1 <==>
              && (rootMemory || IsOpen(fs.open, ROOT_DIR_SECTOR)) && dirMemory
              && i.Some? && (memory || IsOpen(fs.open, fs.dir[i.value].sector)) && wrote
  {
    OpenRootKeepsInv(fs, rootMemory, dirMemory);
    var (fs1, ok) := OpenRoot(fs, rootMemory, dirMemory);
    OpenSucceeds(fs.open, ROOT_DIR_SECTOR);
    var i := Lookup(fs.dir, name, seen);
    if ok && i.Some? {
      NamedNotRemoved(fs, i.value);
      OpenRootOpens(fs, rootMemory, dirMemory, fs.dir[i.value].sector);
      OpenSucceeds(fs1.open, fs.dir[i.value].sector);
    }
  }

  /** inode_open() needs memory exactly for an inode that is not open. */
  lemma OpenSucceeds(open: seq<Open>, s: nat)
    ensures IsOpen(open, s) <==> OpenIndex(open, s) < |open|
  {
    if IsOpen(open, s) { OpenPosition(open, s); }
  }

  lemma CreateOwns(fs: State, name: string, length: nat, rootMemory: bool, dirMemory: bool, env: CreateEnv)
    requires Inv(fs) && SizesOk(fs)
    ensures fs.owned.Keys <= Create(fs, name, length, rootMemory, dirMemory, env).0.owned.Keys
  {
    OpenRootKeepsInv(fs, rootMemory, dirMemory);
    var (fs1, ok) := OpenRoot(fs, rootMemory, dirMemory);
    if ok {
      CreateKeepsInv(fs1, name, length, env);
      CreateOwned(fs1, name, length, env);
      CloseRoot(CreateIn(fs1, name, length, env).0);
    }
  }

  lemma CreateOwned(fs: State, name: string, length: nat, env: CreateEnv)
    requires Inv(fs) && SizesOk(fs)
    ensures fs.owned.Keys <= CreateIn(fs, name, length, env).0.owned.Keys
  {
    AllocatedWasFree(fs.used, 1, env.map1);
    var (used1, r) := Allocate(fs.used, 1, env.map1);
    if r.Some? {
      AllocatedReserved(fs, r.value);
    }
  }

  lemma OpenInOwns(fs: State, name: string, seen: nat, memory: bool, fileMemory: bool)
    requires Inv(fs)
    ensures OpenIn(fs, name, seen, memory, fileMemory).0.owned == fs.owned
  {
    LookupOpenKeepsInv(fs, name, seen, memory);
    var (fs1, s) := LookupOpen(fs, name, seen, memory);
    CloseRoot(fs1);
    CloseSectorKeepsInv(fs1, ROOT_DIR_SECTOR);
    if s.Some? {
      var fs2 := CloseSector(fs1, ROOT_DIR_SECTOR);
      NamedNotRemoved(fs2, Lookup(fs.dir, name, seen).value);
      CloseSectorKeepsInv(fs2, s.value);
    }
  }

  lemma OpenOwns(fs: State, name: string, rootMemory: bool, dirMemory: bool, seen: nat, memory: bool, fileMemory: bool)
    requires Inv(fs)
    ensures OpenFile(fs, name, rootMemory, dirMemory, seen, memory, fileMemory).0.owned == fs.owned
  {
    OpenRootKeepsInv(fs, rootMemory, dirMemory);
    var (fs1, ok) := OpenRoot(fs, rootMemory, dirMemory);
    if ok {
      OpenInOwns(fs1, name, seen, memory, fileMemory);
    }
  }

  lemma OpenRootOpens(fs: State, inodeMemory: bool, dirMemory: bool, s: nat)
    requires Inv(fs) && s != ROOT_DIR_SECTOR && OpenRoot(fs, inodeMemory, dirMemory).1
    ensures IsOpen(OpenRoot(fs, inodeMemory, dirMemory).0.open, s) <==> IsOpen(fs.open, s)
  {
    var fs1, k := OpenRoot(fs, inodeMemory, dirMemory).0, OpenIndex(fs.open, ROOT_DIR_SECTOR);
    if k < |fs.open| {
      assert forall i :: 0 <= i < |fs.open| ==> fs1.open[i].sector == fs.open[i].sector;
    } else {
      forall i | 0 <= i < |fs.open| ensures fs1.open[i + 1].sector == fs.open[i].sector {}
    }
  }

  lemma RemoveOwns(fs: State, name: string, rootMemory: bool, dirMemory: bool, seen: nat, memory: bool, wrote: bool)
    requires Inv(fs) && SizesOk(fs)
    ensures var ((fs', ok), i) :=
            (Remove(fs, name, rootMemory, dirMemory, seen, memory, wrote), Lookup(fs.dir, name, seen));
            && (!ok ==> fs'.owned == fs.owned)
            && (ok ==> i.Some? && var s := fs.dir[i.value].sector;
                       fs'.owned == if IsOpen(fs.open, s) then fs.owned else fs.owned - {s})
  {
    OpenRootKeepsInv(fs, rootMemory, dirMemory);
    var (fs1, ok) := OpenRoot(fs, rootMemory, dirMemory);
    if ok {
      DirRemoveKeepsInv(fs1, name, seen, memory, wrote);
      DirRemoveReleases(fs1, name, seen, memory, wrote);
      CloseRoot(DirRemove(fs1, name, seen, memory, wrote).0);
      var i := Lookup(fs.dir, name, seen);
      if i.Some? {
        OpenRootOpens(fs, rootMemory, dirMemory, fs.dir[i.value].sector);
      }
    }
  }

  // ---------------------------------------------------------------------
  // Names
  // ---------------------------------------------------------------------

  ghost predicate NamesUnique(dir: seq<Entry>) {
    forall i, j :: 0 <= i < j < |dir| && dir[i].inUse && dir[j].inUse ==> dir[i].name != dir[j].name
  }

  /** dir_add() writes an entry although an entry in use has that name: it lies
      beyond the reads of the search, in another slot than the one written. */
  predicate SecondEntry(dir: seq<Entry>, name: string, seen: nat, seenFree: nat, wrote: bool) {
    && wrote && ValidName(name) && FreeSlot(dir, seenFree) < |dir|
    && exists i :: seen <= i < |dir| && i != FreeSlot(dir, seenFree) && dir[i].inUse && dir[i].name == name
  }

  /** Exactly then an addition makes a name ambiguous. */
  lemma AddKeepsUnique(dir: seq<Entry>, name: string, s: nat, seen: nat, seenFree: nat, wrote: bool)
    requires NamesUnique(dir)
    ensures NamesUnique(DirAdd(dir, name, s, seen, seenFree, wrote).0)
       <==> !SecondEntry(dir, name, seen, seenFree, wrote)
  {
    var slot := FreeSlot(dir, seenFree);
    var (dir', ok) := DirAdd(dir, name, s, seen, seenFree, wrote);
    if ok && NamesUnique(dir') {
      forall i | 0 <= i < |dir| && i != slot && dir[i].inUse ensures dir[i].name != name {
        assert dir'[i] == dir[i] && dir'[slot].name == name;
      }
    }
  }

  /** The sector a name stands for. */
  ghost predicate Binds(dir: seq<Entry>, name: string, s: nat) {
    exists i :: 0 <= i < |dir| && dir[i].inUse && dir[i].name == name && dir[i].sector == s
  }

  /** A complete search finds a name exactly if it is bound, and its sector. */
  lemma LookupBinds(dir: seq<Entry>, name: string, seen: nat, s: nat)
    requires NamesUnique(dir) && seen >= |dir|
    ensures Binds(dir, name, s) <==> Lookup(dir, name, seen).Some? && dir[Lookup(dir, name, seen).value].sector == s
  {
  }

  /** An addition binds the new name.  It destroys the binding of the entry it writes
      over, if that was in use, and changes no other binding; with complete reads the
      new name was not bound, and no entry in use is written over. */
  lemma AddBinds(dir: seq<Entry>, name: string, s: nat, seen: nat, seenFree: nat, wrote: bool, m: string, t: nat)
    requires NamesUnique(dir)
    ensures var ((dir', ok), slot) := (DirAdd(dir, name, s, seen, seenFree, wrote), FreeSlot(dir, seenFree));
            && (ok ==> slot < |dir|)
            && (Binds(dir', m, t) <==>
                || (Binds(dir, m, t) && !(ok && dir[slot].inUse && dir[slot].name == m))
                || (ok && m == name && t == s))
            && (ok && seen >= |dir| ==> !Binds(dir, name, t))
            && (ok && seenFree >= |dir| ==> !dir[slot].inUse)
  {
    var (dir', ok) := DirAdd(dir, name, s, seen, seenFree, wrote);
    if ok {
      var slot := FreeSlot(dir, seenFree);
      if Binds(dir, m, t) && !(dir[slot].inUse && dir[slot].name == m) {
        var i :| 0 <= i < |dir| && dir[i].inUse && dir[i].name == m && dir[i].sector == t;
        assert dir'[i] == dir[i];
      }
      assert dir'[slot].name == name && dir'[slot].sector == s;
    }
  }

  /** Erasing an entry unbinds its name and no other. */
  lemma EraseUnbinds(dir: seq<Entry>, i: nat, m: string, t: nat)
    requires NamesUnique(dir) && i < |dir| && dir[i].inUse
    ensures var dir' := dir[i := dir[i].(inUse := false)];
            NamesUnique(dir') && (Binds(dir', m, t) <==> Binds(dir, m, t) && m != dir[i].name)
  {
    var dir' := dir[i := dir[i].(inUse := false)];
    if Binds(dir, m, t) && m != dir[i].name {
      var j :| 0 <= j < |dir| && dir[j].inUse && dir[j].name == m && dir[j].sector == t;
      assert dir'[j] == dir[j];
    }
  }

  /** filesys_create() reaches dir_add(). */
  ghost predicate ReachesAdd(fs: State, length: nat, env: CreateEnv) {
    var (used1, r) := Allocate(fs.used, 1, env.map1);
    r.Some? && r.value < |fs.disk| && InodeCreate(fs.(used := used1), r.value, length, env.memory, env.map2).1
  }

  /** Nothing happened to the directory but a dir_add() of this name, if it was reached. */
  ghost predicate OnlyAdds(fs: State, dir': seq<Entry>, name: string, length: nat, env: CreateEnv) {
    if ReachesAdd(fs, length, env)
    then exists s :: dir' == DirAdd(fs.dir, name, s, env.seen, env.seenFree, env.wrote).0
    else dir' == fs.dir
  }

  /** The erasure of this name was the only change to the directory, if any. */
  ghost predicate OnlyErases(dir: seq<Entry>, dir': seq<Entry>, name: string, seen: nat) {
    || dir' == dir
    || (Lookup(dir, name, seen).Some?
        && var i := Lookup(dir, name, seen).value; dir' == dir[i := dir[i].(inUse := false)])
  }

  lemma CreateInDir(fs: State, name: string, length: nat, env: CreateEnv)
    requires SizesOk(fs)
    ensures OnlyAdds(fs, CreateIn(fs, name, length, env).0.dir, name, length, env)
  {
    var (used1, r) := Allocate(fs.used, 1, env.map1);
    AllocatedWasFree(fs.used, 1, env.map1);
    if ReachesAdd(fs, length, env) {
      assert CreateIn(fs, name, length, env).0.dir
             == DirAdd(fs.dir, name, r.value, env.seen, env.seenFree, env.wrote).0;
    }
  }

  lemma CreateDir(fs: State, name: string, length: nat, rootMemory: bool, dirMemory: bool, env: CreateEnv)
    requires Inv(fs) && SizesOk(fs)
    ensures var dir' := Create(fs, name, length, rootMemory, dirMemory, env).0.dir;
            if OpenRoot(fs, rootMemory, dirMemory).1 then OnlyAdds(fs, dir', name, length, env) else dir' == fs.dir
  {
    OpenRootKeepsInv(fs, rootMemory, dirMemory);
    var (fs1, ok) := OpenRoot(fs, rootMemory, dirMemory);
    if ok {
      CreateInDir(fs1, name, length, env);
      CreateKeepsInv(fs1, name, length, env);
      CloseRoot(CreateIn(fs1, name, length, env).0);
    }
  }

  lemma CloseDir(fs: State, k: nat)
    ensures InodeClose(fs, k).dir == fs.dir
  {
  }

  lemma DirRemoveDir(fs: State, name: string, seen: nat, memory: bool, wrote: bool)
    ensures OnlyErases(fs.dir, DirRemove(fs, name, seen, memory, wrote).0.dir, name, seen)
  {
    var i := Lookup(fs.dir, name, seen);
    if i.Some? {
      var s := fs.dir[i.value].sector;
      var fs1 := InodeOpen(fs, s, memory).0;
      CloseDir(fs1, OpenIndex(fs1.open, s));
      CloseDir(Erased(fs1, i.value, OpenIndex(fs1.open, s)), OpenIndex(fs1.open, s));
    }
  }

  lemma RemoveDir(fs: State, name: string, rootMemory: bool, dirMemory: bool, seen: nat, memory: bool, wrote: bool)
    requires Inv(fs)
    ensures OnlyErases(fs.dir, Remove(fs, name, rootMemory, dirMemory, seen, memory, wrote).0.dir, name, seen)
  {
    OpenRootKeepsInv(fs, rootMemory, dirMemory);
    var (fs1, ok) := OpenRoot(fs, rootMemory, dirMemory);
    if ok {
      DirRemoveDir(fs1, name, seen, memory, wrote);
      var fs2 := DirRemove(fs1, name, seen, memory, wrote).0;
      CloseDir(fs2, OpenIndex(fs2.open, ROOT_DIR_SECTOR));
    }
  }

  lemma OpenInDir(fs: State, name: string, seen: nat, memory: bool, fileMemory: bool)
    ensures OpenIn(fs, name, seen, memory, fileMemory).0.dir == fs.dir
  {
    var (fs1, s) := LookupOpen(fs, name, seen, memory);
    CloseDir(fs1, OpenIndex(fs1.open, ROOT_DIR_SECTOR));
    if s.Some? {
      var fs2 := CloseSector(fs1, ROOT_DIR_SECTOR);
      CloseDir(fs2, OpenIndex(fs2.open, s.value));
    }
  }

  lemma OpenDir(fs: State, name: string, rootMemory: bool, dirMemory: bool, seen: nat, memory: bool, fileMemory: bool)
    requires Inv(fs)
    ensures OpenFile(fs, name, rootMemory, dirMemory, seen, memory, fileMemory).0.dir == fs.dir
  {
    OpenRootKeepsInv(fs, rootMemory, dirMemory);
    var (fs1, ok) := OpenRoot(fs, rootMemory, dirMemory);
    if ok {
      OpenInDir(fs1, name, seen, memory, fileMemory);
    }
  }

  /** This call creates a second entry with the same name. */
  ghost predicate Duplicates(fs: State, c: Call) {
    && c.CreateCall? && OpenRoot(fs, c.rootMemory, c.dirMemory).1 && ReachesAdd(fs, c.length, c.env)
    && SecondEntry(fs.dir, c.name, c.env.seen, c.env.seenFree, c.env.wrote)
  }

  /** A call keeps the names unique exactly unless it does that. */
  lemma StepKeepsUnique(fs: State, c: Call)
    requires Inv(fs) && SizesOk(fs) && Legal(fs, c) && NamesUnique(fs.dir)
    ensures NamesUnique(Step(fs, c).dir) <==> !Duplicates(fs, c)
    ensures |Step(fs, c).dir| == |fs.dir|
  {
    match c
    case CreateCall(name, length, rootMemory, dirMemory, env) =>
      CreateDir(fs, name, length, rootMemory, dirMemory, env);
      AddsUnique(fs, Step(fs, c).dir, name, length, env);
    case OpenCall(name, rootMemory, dirMemory, seen, memory, fileMemory) =>
      OpenDir(fs, name, rootMemory, dirMemory, seen, memory, fileMemory);
    case RemoveCall(name, rootMemory, dirMemory, seen, memory, wrote) =>
      RemoveDir(fs, name, rootMemory, dirMemory, seen, memory, wrote);
      ErasesUnique(fs.dir, Step(fs, c).dir, name, seen);
    case ReopenCall(s) =>
    case CloseCall(s) =>
      CloseDir(fs, OpenIndex(fs.open, s));
  }

  lemma AddsUnique(fs: State, dir': seq<Entry>, name: string, length: nat, env: CreateEnv)
    requires NamesUnique(fs.dir)
    ensures OnlyAdds(fs, dir', name, length, env) ==>
              && |dir'| == |fs.dir|
              && (NamesUnique(dir') <==>
                  !(ReachesAdd(fs, length, env) && SecondEntry(fs.dir, name, env.seen, env.seenFree, env.wrote)))
  {
    if OnlyAdds(fs, dir', name, length, env) && ReachesAdd(fs, length, env) {
      var s :| dir' == DirAdd(fs.dir, name, s, env.seen, env.seenFree, env.wrote).0;
      AddKeepsUnique(fs.dir, name, s, env.seen, env.seenFree, env.wrote);
    }
  }

  lemma ErasesUnique(dir: seq<Entry>, dir': seq<Entry>, name: string, seen: nat)
    requires NamesUnique(dir) && OnlyErases(dir, dir', name, seen)
    ensures NamesUnique(dir') && |dir'| == |dir|
  {
  }

  /** No call of the run creates a second entry of a name. */
  ghost predicate NoDuplicates(fs: State, run: seq<Call>)
    decreases |run|
  {
    run != [] ==> !Duplicates(fs, run[0]) && NoDuplicates(Step(fs, run[0]), run[1..])
  }

  /** Every search of the run read all of the directory. */
  ghost predicate CompleteReads(slots: nat, run: seq<Call>) {
    forall i :: 0 <= i < |run| && run[i].CreateCall? ==> run[i].env.seen >= slots
  }

  lemma {:induction false} RunKeepsUnique(fs: State, run: seq<Call>)
    requires Inv(fs) && SizesOk(fs) && LegalRun(fs, run) && NamesUnique(fs.dir)
    ensures NoDuplicates(fs, run) ==> NamesUnique(After(fs, run).dir)
    ensures CompleteReads(|fs.dir|, run) ==> NoDuplicates(fs, run)
    decreases |run|
  {
    if run != [] {
      StepKeepsInv(fs, run[0]);
      StepKeepsUnique(fs, run[0]);
      assert forall i :: 0 <= i < |run| - 1 ==> run[1..][i] == run[i + 1];
      if !Duplicates(fs, run[0]) { RunKeepsUnique(Step(fs, run[0]), run[1..]); }
    }
  }

  /** From a formatted disk the names in use stay unique over any run without such a
      call; a run whose searches read all 16 slots has none. */
  lemma UniqueNames(disk: seq<Block>, run: seq<Call>)
    requires Format(disk).Some? && LegalRun(Format(disk).value, run)
    requires NoDuplicates(Format(disk).value, run) || CompleteReads(16, run)
    ensures NamesUnique(After(Format(disk).value, run).dir)
  {
    FormatInv(disk);
    RunKeepsUnique(Format(disk).value, run);
  }
}

/**
 The file system's objects in place: the list of open struct inodes, the free map
 bitmap, the device and the root directory.  Each operation is proved to take the
 step FileSystems defines for it.
 */
module Inodes {
  import opened Common
  import opened Bitmaps
  import opened FileSystems

  class Inode {
    const sector: nat
    const data: Extent
    var openCnt: nat
    var removed: bool

    constructor (s: nat, d: Extent)
      ensures sector == s && data == d && openCnt == 1 && !removed
    {
      sector, data, openCnt, removed := s, d, 1, false;
    }

    ghost function View(): Open
      reads this
    {
      Open(sector, openCnt, removed, data)
    }
  }

  ghost function Views(list: seq<Inode>): (s: seq<Open>)
    reads list
    ensures |s| == |list| && forall i :: 0 <= i < |list| ==> s[i] == list[i].View()
  {
    seq(|list|, i requires 0 <= i < |list| reads list => list[i].View())
  }

  lemma UndoSet(used: seq<bool>, r: nat, cnt: nat)
    requires r + cnt <= |used| && AllBits(used, r, cnt, false)
    ensures SetBits(SetBits(used, r, cnt, true), r, cnt, false) == used
  {
  }

  class Files {
    const freeMap: Bitmap
    var disk: seq<Block>
    var openInodes: seq<Inode>
    var dir: seq<Entry>
    ghost var owned: map<nat, Extent>

    /** The objects on the list. */
    ghost function Objects(): set<object>
      reads this`openInodes
    {
      set i: object | i in openInodes
    }

    ghost predicate Repr()
      reads this
    {
      freeMap.Valid() && NoDup(openInodes)
    }

    ghost function View(): State
      requires Repr()
      reads this, openInodes, freeMap.bits
    {
      State(freeMap.Bits(), disk, Views(openInodes), dir, owned)
    }

    ghost predicate Valid()
      reads this, openInodes, freeMap.bits
    {
      Repr() && Inv(View()) && SizesOk(View())
    }

    /** inode_init() and free_map_init() */
    constructor (device: seq<Block>)
      requires |device| >= 2
      ensures Repr() && View() == Blank(device) && fresh(freeMap) && fresh(freeMap.bits)
    {
      freeMap := new Bitmap(|device|);
      disk, openInodes, dir, owned := device, [], [], map[];
      new;
      freeMap.Mark(FREE_MAP_SECTOR);
      freeMap.Mark(ROOT_DIR_SECTOR);
      assert freeMap.Bits() == Blank(device).used;
    }

    /** free_map_allocate() */
    method FreeMapAllocate(cnt: nat, written: bool) returns (r: Option<nat>)
      requires freeMap.Valid()
      modifies freeMap.bits
      ensures (freeMap.Bits(), r) == Allocate(old(freeMap.Bits()), cnt, written)
    {
      AllocatedWasFree(freeMap.Bits(), cnt, written);
      r := freeMap.ScanAndFlip(0, cnt, false);
      if r.Some? && !written {
        FirstGroupIsLeast(old(freeMap.Bits()), 0, cnt, false);
        UndoSet(old(freeMap.Bits()), r.value, cnt);
        freeMap.SetMultiple(r.value, cnt, false);
        r := None;
      }
    }

    /** free_map_release() */
    method FreeMapRelease(s: nat, cnt: nat)
      requires freeMap.Valid() && s + cnt <= freeMap.bitCnt && AllBits(freeMap.Bits(), s, cnt, true)
      modifies freeMap.bits
      ensures freeMap.Bits() == Release(old(freeMap.Bits()), s, cnt)
    {
      var all := freeMap.All(s, cnt);
      assert all;
      freeMap.SetMultiple(s, cnt, false);
    }

    /** inode_create() */
    method Create(s: nat, length: nat, memory: bool, written: bool) returns (ok: bool)
      requires Repr() && s < |disk| == freeMap.bitCnt
      modifies this`disk, this`owned, freeMap.bits
      ensures Repr() && (View(), ok) == InodeCreate(old(View()), s, length, memory, written)
    {
      if !memory {
        return false;
      }
      var sectors := (length + SECTOR_SIZE - 1) / SECTOR_SIZE;
      AllocatedWasFree(freeMap.Bits(), sectors, written);
      var start := FreeMapAllocate(sectors, written);
      if start == None {
        return false;
      }
      disk := disk[s := Header(Extent(start.value, length))];
      owned := owned[s := Extent(start.value, length)];
      WriteZeros(start.value, sectors);
      return true;
    }

    /** The loop of inode_create() that writes zeros. */
    method WriteZeros(start: nat, sectors: nat)
      requires start + sectors <= |disk|
      modifies this`disk
      ensures disk == Zeroed(old(disk), start, sectors)
    {
      var i := 0;
      while i < sectors
        invariant 0 <= i <= sectors && |disk| == |old(disk)| && disk == Zeroed(old(disk), start, i)
      {
        disk := disk[start + i := Data];
        i := i + 1;
      }
    }

    /** The search of inode_open(). */
    method Find(s: nat) returns (k: nat)
      ensures k == OpenIndex(Views(openInodes), s)
    {
      k := 0;
      while k < |openInodes|
        invariant 0 <= k <= |openInodes| && forall j :: 0 <= j < k ==> openInodes[j].sector != s
      {
        if openInodes[k].sector == s {
          return;
        }
        k := k + 1;
      }
    }

    /** inode_open() */
    method OpenInode(s: nat, memory: bool) returns (inode: Inode?)
      requires Repr() && s < |disk| && disk[s].Header?
      modifies this`openInodes, Objects()
      ensures Repr() && View() == InodeOpen(old(View()), s, memory).0
      ensures (inode != null) == InodeOpen(old(View()), s, memory).1
      ensures inode != null ==> inode in openInodes && inode.sector == s
      ensures fresh(Objects() - old(Objects()))
      ensures forall i: Inode :: i in old(openInodes) ==> i in openInodes
    {
      hide OpenIndex;
      var k := Find(s);
      if k < |openInodes| {
        inode := openInodes[k];
        ReopenInode(inode, k);
      } else if memory {
        inode := PushInode(s);
      } else {
        inode := null;
      }
    }

    /** inode_reopen() of the inode at position k of the list. */
    method ReopenInode(inode: Inode, ghost k: nat)
      requires NoDup(openInodes) && k < |openInodes| && inode == openInodes[k]
      modifies inode`openCnt
      ensures Views(openInodes) == old(Views(openInodes))[k := old(inode.View()).(cnt := old(inode.openCnt) + 1)]
    {
      inode.openCnt := inode.openCnt + 1;
    }

    /** A new struct inode at the front of the list. */
    method PushInode(s: nat) returns (inode: Inode)
      requires NoDup(openInodes) && s < |disk| && disk[s].Header?
      modifies this`openInodes
      ensures NoDup(openInodes) && openInodes == [inode] + old(openInodes) && fresh(inode) && inode.sector == s
      ensures Views(openInodes) == [Open(s, 1, false, disk[s].data)] + old(Views(openInodes))
    {
      inode := new Inode(s, disk[s].data);
      openInodes := [inode] + openInodes;
    }

    /** inode_remove() of the inode at position k of the list. */
    method RemoveInode(inode: Inode, ghost k: nat)
      requires NoDup(openInodes) && k < |openInodes| && inode == openInodes[k]
      modifies inode`removed
      ensures Views(openInodes) == old(Views(openInodes))[k := old(inode.View()).(removed := true)]
    {
      inode.removed := true;
    }

    /** Count an opener of the inode at position k of the list out. */
    method Uncount(inode: Inode, ghost k: nat)
      requires NoDup(openInodes) && k < |openInodes| && inode == openInodes[k] && inode.openCnt > 0
      modifies inode`openCnt
      ensures Views(openInodes) == old(Views(openInodes))[k := old(inode.View()).(cnt := old(inode.openCnt) - 1)]
      ensures inode.openCnt == old(inode.openCnt) - 1
    {
      inode.openCnt := inode.openCnt - 1;
    }

    /** list_remove() of the inode. */
    method Unlink(inode: Inode, ghost k: nat)
      requires NoDup(openInodes) && k < |openInodes| && inode == openInodes[k]
      modifies this`openInodes
      ensures NoDup(openInodes) && openInodes == Without(old(openInodes), k)
      ensures Views(openInodes) == Without(old(Views(openInodes)), k)
    {
      openInodes := Without(openInodes, IndexOf(openInodes, inode));
    }

    /** The last opener has gone. */
    method CloseLast(inode: Inode, ghost k: nat)
      requires Repr() && k < |openInodes| && inode == openInodes[k]
      requires var n := Sectors(inode.data.length);
               && inode.sector + 1 <= freeMap.bitCnt && AllBits(freeMap.Bits(), inode.sector, 1, true)
               && inode.data.start + n <= freeMap.bitCnt
               && AllBits(Release(freeMap.Bits(), inode.sector, 1), inode.data.start, n, true)
      modifies this`openInodes, this`owned, freeMap.bits
      ensures Repr() && openInodes == Without(old(openInodes), k)
              && Views(openInodes) == Without(old(Views(openInodes)), k)
      ensures owned == if inode.removed then old(owned) - {inode.sector} else old(owned)
      ensures freeMap.Bits() == if inode.removed
              then Release(Release(old(freeMap.Bits()), inode.sector, 1), inode.data.start, Sectors(inode.data.length))
              else old(freeMap.Bits())
    {
      Unlink(inode, k);
      if inode.removed {
        FreeMapRelease(inode.sector, 1);
        FreeMapRelease(inode.data.start, (inode.data.length + SECTOR_SIZE - 1) / SECTOR_SIZE);
        owned := owned - {inode.sector};
      }
    }

    /** inode_close() of an inode (a null pointer is ignored). */
    method CloseInode(inode: Inode)
      requires Valid() && inode in openInodes
      modifies this`openInodes, this`owned, inode`openCnt, freeMap.bits
      ensures Valid() && View() == CloseSector(old(View()), inode.sector)
      ensures Objects() <= old(Objects())
      ensures forall i: Inode :: i in old(openInodes) && i != inode ==> i in openInodes
    {
      hide DiskOk, DirOk, RemovedOk, AllBits, Release;
      ghost var fs := View();
      ghost var k := IndexOf(openInodes, inode);
      SectorIndex(fs, k);
      CloseSectorKeepsInv(fs, inode.sector);
      Uncount(inode, k);
      if inode.openCnt == 0 {
        ReleaseInode(fs.used, fs.disk, fs.owned, inode.sector);
        WithoutUpdated(fs.open, Open(inode.sector, 0, inode.removed, inode.data), k);
        CloseLast(inode, k);
      }
    }

    /** dir_open_root() */
    method OpenRootDir(inodeMemory: bool, dirMemory: bool) returns (root: Inode?)
      requires Valid()
      modifies this`openInodes, this`owned, Objects(), freeMap.bits
      ensures Valid()
      ensures (View(), root != null) == OpenRoot(old(View()), inodeMemory, dirMemory)
      ensures root != null ==> root in openInodes && root.sector == ROOT_DIR_SECTOR
      ensures fresh(Objects() - old(Objects()))
    {
      ghost var fs := View();
      RootNotRemoved(fs);
      HeaderThere(fs, ROOT_DIR_SECTOR);
      OpenKeepsInv(fs, ROOT_DIR_SECTOR, inodeMemory);
      root := OpenInode(ROOT_DIR_SECTOR, inodeMemory);
      if root != null && !dirMemory {
        CloseInode(root);
        root := null;
      }
    }

    /** lookup() */
    method LookupName(name: string, seen: nat) returns (r: Option<nat>)
      ensures r == Lookup(dir, name, seen)
    {
      var i := 0;
      while i < |dir| && i < seen
        invariant 0 <= i <= |dir| && i <= seen
        invariant forall j :: 0 <= j < i ==> !(dir[j].inUse && dir[j].name == name)
      {
        if dir[i].inUse && dir[i].name == name {
          return Some(i);
        }
        i := i + 1;
      }
      return None;
    }

    /** The search of dir_add() for a free slot. */
    method FindSlot(seen: nat) returns (i: nat)
      ensures i == FreeSlot(dir, seen)
    {
      i := 0;
      while i < |dir| && i < seen && dir[i].inUse
        invariant 0 <= i <= |dir| && i <= seen && forall j :: 0 <= j < i ==> dir[j].inUse
      {
        i := i + 1;
      }
    }

    /** dir_add() */
    method AddEntry(name: string, s: nat, seen: nat, seenFree: nat, wrote: bool) returns (success: bool)
      modifies this`dir
      ensures (dir, success) == DirAdd(old(dir), name, s, seen, seenFree, wrote)
    {
      if name == "" || |name| > NAME_MAX {
        return false;
      }
      var found := LookupName(name, seen);
      if found.Some? {
        return false;
      }
      var i := FindSlot(seenFree);
      if i < |dir| && wrote {
        dir := dir[i := Entry(true, s, name)];
        return true;
      }
      return false;
    }

    /** dir_remove() */
    method RemoveEntry(name: string, seen: nat, memory: bool, wrote: bool, ghost root: Inode) returns (success: bool)
      requires Valid() && root in openInodes && root.sector == ROOT_DIR_SECTOR
      modifies this`openInodes, this`owned, this`dir, Objects(), freeMap.bits
      ensures Valid() && (View(), success) == DirRemove(old(View()), name, seen, memory, wrote)
      ensures root in openInodes && fresh(Objects() - old(Objects()))
    {
      var i := LookupName(name, seen);
      if i == None {
        return false;
      }
      success := RemoveFound(i.value, memory, wrote, root);
    }

    /** dir_remove() once the entry is found. */
    method RemoveFound(i: nat, memory: bool, wrote: bool, ghost root: Inode) returns (success: bool)
      requires Valid() && i < |dir| && dir[i].inUse && root in openInodes && root.sector == ROOT_DIR_SECTOR
      modifies this`openInodes, this`owned, this`dir, Objects(), freeMap.bits
      ensures Valid() && (View(), success) == RemoveAt(old(View()), i, memory, wrote)
      ensures root in openInodes && fresh(Objects() - old(Objects()))
    {
      hide DiskOk, DirOk, RemovedOk, Erased, CloseSector;
      ghost var fs := View();
      NamedNotRemoved(fs, i);
      HeaderThere(fs, dir[i].sector);
      OpenKeepsInv(fs, dir[i].sector, memory);
      var inode := OpenInode(dir[i].sector, memory);
      if inode == null {
        return false;
      }
      assert root != inode;
      RemoveAtParts(fs, View(), i, memory, wrote);
      if wrote {
        EraseEntry(i, inode);
      }
      CloseInode(inode);
      return wrote;
    }

    /** The end of dir_remove(): erase the entry and mark the inode. */
    method EraseEntry(i: nat, inode: Inode)
      requires Valid() && i < |dir| && dir[i].inUse && inode in openInodes && inode.sector == dir[i].sector
      modifies this`dir, inode`removed
      ensures Valid() && View() == Erased(old(View()), i, OpenIndex(old(View()).open, inode.sector))
    {
      ghost var k := IndexOf(openInodes, inode);
      SectorIndex(View(), k);
      RemoveKeepsInv(View(), i, k);
      dir := dir[i := dir[i].(inUse := false)];
      RemoveInode(inode, k);
    }

    /** filesys_create() once it has a sector for the inode. */
    method CreateOn(s: nat, name: string, length: nat, env: CreateEnv) returns (success: bool)
      requires Repr() && s < |disk| == freeMap.bitCnt && freeMap.Bits()[s]
      modifies this`disk, this`owned, this`dir, freeMap.bits
      ensures Repr() && (View(), success) == CreateAt(old(View()), s, name, length, env)
    {
      AllocatedWasFree(freeMap.Bits(), Sectors(length), env.map2);
      success := Create(s, length, env.memory, env.map2);
      ghost var created := success;
      if success {
        success := AddEntry(name, s, env.seen, env.seenFree, env.wrote);
      }
      if !success && s != 0 {
        FreeMapRelease(s, 1);
        owned := if created then owned - {s} else owned;
      }
    }

    /** The part of filesys_create() after the root directory is open. */
    method CreateInRoot(name: string, length: nat, env: CreateEnv) returns (success: bool)
      requires Valid()
      modifies this`disk, this`owned, this`dir, freeMap.bits
      ensures Valid() && (View(), success) == CreateIn(old(View()), name, length, env)
    {
      CreateKeepsInv(View(), name, length, env);
      AllocatedWasFree(freeMap.Bits(), 1, env.map1);
      var s := FreeMapAllocate(1, env.map1);
      if s == None {
        return false;
      }
      success := CreateOn(s.value, name, length, env);
    }

    /** filesys_create() */
    method CreateFile(name: string, length: nat, rootMemory: bool, dirMemory: bool, env: CreateEnv)
      returns (success: bool)
      requires Valid()
      modifies this, Objects(), freeMap.bits
      ensures Valid()
      ensures (View(), success) == FileSystems.Create(old(View()), name, length, rootMemory, dirMemory, env)
      ensures fresh(Objects() - old(Objects()))
    {
      hide DiskOk, OpenOk, DirOk, RemovedOk, OpenRoot, CreateIn, CloseSector;
      var root := OpenRootDir(rootMemory, dirMemory);
      if root == null {
        return false;
      }
      success := CreateInRoot(name, length, env);
      CloseInode(root);
    }

    /** dir_lookup() */
    method LookupInode(name: string, seen: nat, memory: bool, ghost root: Inode) returns (inode: Inode?)
      requires Valid() && root in openInodes && root.sector == ROOT_DIR_SECTOR
      modifies this`openInodes, Objects()
      ensures Valid() && View() == LookupOpen(old(View()), name, seen, memory).0
      ensures LookupOpen(old(View()), name, seen, memory).1 == if inode == null then None else Some(inode.sector)
      ensures inode != null ==> inode in openInodes && inode != root
      ensures root in openInodes && fresh(Objects() - old(Objects()))
    {
      LookupOpenKeepsInv(View(), name, seen, memory);
      inode := null;
      var i := LookupName(name, seen);
      if i.Some? {
        NamedNotRemoved(View(), i.value);
        HeaderThere(View(), dir[i.value].sector);
        inode := OpenInode(dir[i.value].sector, memory);
      }
    }

    ghost function Handle(inode: Inode?): Option<nat> {
      if inode == null then None else Some(inode.sector)
    }

    /** filesys_open() once the root directory is open. */
    method OpenInRoot(root: Inode, name: string, seen: nat, memory: bool, fileMemory: bool) returns (inode: Inode?)
      requires Valid() && root in openInodes && root.sector == ROOT_DIR_SECTOR
      modifies this`openInodes, this`owned, Objects(), freeMap.bits
      ensures Valid() && (View(), Handle(inode)) == OpenIn(old(View()), name, seen, memory, fileMemory)
      ensures inode != null ==> inode in openInodes
      ensures fresh(Objects() - old(Objects()))
    {
      inode := LookupInode(name, seen, memory, root);
      CloseInode(root);
      inode := FileOpen(inode, fileMemory);
    }

    /** filesys_open(), with the inode in place of the struct file around it. */
    method OpenFile(name: string, rootMemory: bool, dirMemory: bool, seen: nat, memory: bool, fileMemory: bool)
      returns (inode: Inode?)
      requires Valid()
      modifies this, Objects(), freeMap.bits
      ensures Valid()
      ensures (View(), Handle(inode))
              == FileSystems.OpenFile(old(View()), name, rootMemory, dirMemory, seen, memory, fileMemory)
      ensures inode != null ==> inode in openInodes
      ensures fresh(Objects() - old(Objects()))
    {
      hide DiskOk, OpenOk, DirOk, RemovedOk, OpenRoot, OpenIn;
      var root := OpenRootDir(rootMemory, dirMemory);
      if root == null {
        return null;
      }
      inode := OpenInRoot(root, name, seen, memory, fileMemory);
    }

    /** file_open() of an inode, which is closed again if there is no memory. */
    method FileOpen(inode: Inode?, memory: bool) returns (r: Inode?)
      requires Valid() && (inode != null ==> inode in openInodes)
      modifies this`openInodes, this`owned, freeMap.bits, Objects()
      ensures Valid() && r == if memory then inode else null
      ensures View() == if inode == null || memory then old(View()) else CloseSector(old(View()), inode.sector)
      ensures r != null ==> r in openInodes
      ensures Objects() <= old(Objects())
    {
      r := inode;
      if inode != null && !memory {
        CloseInode(inode);
        r := null;
      }
    }

    /** filesys_remove() once the root directory is open. */
    method RemoveInRoot(root: Inode, name: string, seen: nat, memory: bool, wrote: bool) returns (success: bool)
      requires Valid() && root in openInodes && root.sector == ROOT_DIR_SECTOR
      modifies this`openInodes, this`owned, this`dir, Objects(), freeMap.bits
      ensures Valid() && (View(), success) == RemoveIn(old(View()), name, seen, memory, wrote)
      ensures fresh(Objects() - old(Objects()))
    {
      success := RemoveEntry(name, seen, memory, wrote, root);
      CloseInode(root);
    }

    /** filesys_remove() */
    method RemoveFile(name: string, rootMemory: bool, dirMemory: bool, seen: nat, memory: bool, wrote: bool)
      returns (success: bool)
      requires Valid()
      modifies this, Objects(), freeMap.bits
      ensures Valid()
      ensures (View(), success) == Remove(old(View()), name, rootMemory, dirMemory, seen, memory, wrote)
      ensures fresh(Objects() - old(Objects()))
    {
      hide DiskOk, OpenOk, DirOk, RemovedOk, OpenRoot, RemoveIn;
      var root := OpenRootDir(rootMemory, dirMemory);
      if root == null {
        return false;
      }
      success := RemoveInRoot(root, name, seen, memory, wrote);
    }
  }

  lemma RemoveAtParts(fs: State, fs1: State, i: nat, memory: bool, wrote: bool)
    requires i < |fs.dir| && InodeOpen(fs, fs.dir[i].sector, memory) == (fs1, true)
    ensures var s := fs.dir[i].sector;
            RemoveAt(fs, i, memory, wrote) ==
            (CloseSector(if wrote then Erased(fs1, i, OpenIndex(fs1.open, s)) else fs1, s), wrote)
  {
    var s := fs.dir[i].sector;
    SameSectors(fs1.open, OpenIndex(fs1.open, s), s);
  }

  lemma SameSectors(open: seq<Open>, k: nat, s: nat)
    ensures k < |open| ==> OpenIndex(open[k := open[k].(removed := true)], s) == OpenIndex(open, s)
  {
    if k < |open| {
      var open' := open[k := open[k].(removed := true)];
      assert forall i :: 0 <= i < |open| ==> open'[i].sector == open[i].sector;
      assert OpenIndex(open', s) <= |open| && OpenIndex(open, s) <= |open|;
    }
  }

  lemma HeaderThere(fs: State, s: nat)
    requires Inv(fs) && s in fs.owned
    ensures s < |fs.disk| && fs.disk[s] == Header(fs.owned[s])
  {
    assert InodeOk(fs.used, fs.disk, s, fs.owned[s]);
  }

  /** Sectors identify open inodes. */
  lemma SectorIndex(fs: State, k: nat)
    requires Inv(fs) && k < |fs.open|
    ensures OpenIndex(fs.open, fs.open[k].sector) == k && fs.open[k].cnt > 0 && fs.open[k].sector in fs.owned
    ensures fs.open[k].data == fs.owned[fs.open[k].sector]
  {
  }

  lemma WithoutUpdated<T>(s: seq<T>, x: T, k: nat)
    requires k < |s|
    ensures Without(s[k := x], k) == Without(s, k)
  {
  }

  function IndexOf(list: seq<Inode>, inode: Inode): (k: nat)
    requires inode in list
    ensures k < |list| && list[k] == inode
    ensures NoDup(list) ==> forall j :: 0 <= j < |list| && list[j] == inode ==> j == k
  {
    if list[0] == inode then 0 else 1 + IndexOf(list[1..], inode)
  }
}

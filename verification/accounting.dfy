/**
 The free map against the inodes that can still be reached: which sectors each
 call of the file system releases, and exactly which calls lose sectors for good.
 */
module Accounting {
  import opened Common
  import opened Bitmaps
  import opened FileSystems

  // ---------------------------------------------------------------------
  // What a call releases
  // ---------------------------------------------------------------------

  /** Sector x belonged to an inode that does not exist any more. */
  ghost predicate Dropped(fs: State, fs': State, x: nat) {
    exists s :: s in fs.owned && s !in fs'.owned && Occupies(x, s, fs.owned[s])
  }

  /** The sectors released from fs to fs' are those of the inodes that ceased to exist. */
  ghost predicate Frees(fs: State, fs': State) {
    |fs'.used| == |fs.used| && forall x: nat :: x < |fs.used| && fs.used[x] ==> (!fs'.used[x] <==> Dropped(fs, fs', x))
  }

  lemma CloseFrees(fs: State, k: nat)
    requires Inv(fs)
    ensures Frees(fs, InodeClose(fs, k))
  {
    var fs' := InodeClose(fs, k);
    if LastClose(fs, k) {
      var s := fs.open[k].sector;
      ReleaseInode(fs.used, fs.disk, fs.owned, s);
      forall x: nat | x < |fs.used| && fs.used[x] ensures !fs'.used[x] <==> Dropped(fs, fs', x) {
        if Occupies(x, s, fs.owned[s]) {
          assert s in fs.owned && s !in fs'.owned;
        }
      }
    }
  }

  lemma SameFrees(fs: State, fs': State)
    requires fs'.used == fs.used && fs'.owned == fs.owned
    ensures Frees(fs, fs')
  {
  }

  lemma CreateFrees(fs: State, name: string, length: nat, env: CreateEnv)
    requires Inv(fs) && SizesOk(fs)
    ensures Frees(fs, CreateIn(fs, name, length, env).0)
  {
    var fs' := CreateIn(fs, name, length, env).0;
    CreateKeepsInv(fs, name, length, env);
    CreateOwned(fs, name, length, env);
    CreateTakes(fs, name, length, env);
    forall x: nat | x < |fs.used| && fs.used[x] ensures !Dropped(fs, fs', x) {
    }
  }

  /** filesys_create() gives back only the sector that it took. */
  lemma CreateTakes(fs: State, name: string, length: nat, env: CreateEnv)
    requires Inv(fs) && SizesOk(fs)
    ensures var fs' := CreateIn(fs, name, length, env).0;
            |fs'.used| == |fs.used| && forall x: nat :: x < |fs.used| && fs.used[x] ==> fs'.used[x]
  {
    AllocatedWasFree(fs.used, 1, env.map1);
    var (used1, r) := Allocate(fs.used, 1, env.map1);
    AllocatedWasFree(used1, Sectors(length), env.map2);
  }

  lemma DirRemoveFrees(fs: State, name: string, seen: nat, memory: bool, wrote: bool)
    requires Inv(fs)
    ensures Frees(fs, DirRemove(fs, name, seen, memory, wrote).0)
  {
    var i := Lookup(fs.dir, name, seen);
    if i.Some? {
      var s := fs.dir[i.value].sector;
      NamedNotRemoved(fs, i.value);
      OpenKeepsInv(fs, s, memory);
      var (fs1, ok) := InodeOpen(fs, s, memory);
      if ok {
        OpenPosition(fs1.open, s);
        var k := OpenIndex(fs1.open, s);
        RemoveKeepsInv(fs1, i.value, k);
        CloseFrees(fs1, k);
        CloseFrees(Erased(fs1, i.value, k), k);
      }
    }
  }

  lemma RemoveFrees(fs: State, name: string, rootMemory: bool, dirMemory: bool, seen: nat, memory: bool, wrote: bool)
    requires Inv(fs)
    ensures Frees(fs, Remove(fs, name, rootMemory, dirMemory, seen, memory, wrote).0)
  {
    OpenRootKeepsInv(fs, rootMemory, dirMemory);
    var (fs1, ok) := OpenRoot(fs, rootMemory, dirMemory);
    if ok {
      DirRemoveKeepsInv(fs1, name, seen, memory, wrote);
      DirRemoveFrees(fs1, name, seen, memory, wrote);
      CloseRoot(DirRemove(fs1, name, seen, memory, wrote).0);
    }
  }

  lemma OpenFrees(fs: State, name: string, rootMemory: bool, dirMemory: bool, seen: nat, memory: bool, fileMemory: bool)
    requires Inv(fs)
    ensures Frees(fs, OpenFile(fs, name, rootMemory, dirMemory, seen, memory, fileMemory).0)
  {
    OpenRootKeepsInv(fs, rootMemory, dirMemory);
    var (fs1, ok) := OpenRoot(fs, rootMemory, dirMemory);
    if ok {
      OpenInFrees(fs1, name, seen, memory, fileMemory);
    }
  }

  lemma OpenInFrees(fs: State, name: string, seen: nat, memory: bool, fileMemory: bool)
    requires Inv(fs)
    ensures Frees(fs, OpenIn(fs, name, seen, memory, fileMemory).0)
  {
    hide Inv;
    LookupOpenKeepsInv(fs, name, seen, memory);
    var (fs1, s) := LookupOpen(fs, name, seen, memory);
    CloseRoot(fs1);
    CloseSectorKeepsInv(fs1, ROOT_DIR_SECTOR);
    if s.Some? && !fileMemory {
      var fs2 := CloseSector(fs1, ROOT_DIR_SECTOR);
      CloseFrees(fs2, OpenIndex(fs2.open, s.value));
    }
  }

  lemma CreateFileFrees(fs: State, name: string, length: nat, rootMemory: bool, dirMemory: bool, env: CreateEnv)
    requires Inv(fs) && SizesOk(fs)
    ensures Frees(fs, Create(fs, name, length, rootMemory, dirMemory, env).0)
  {
    OpenRootKeepsInv(fs, rootMemory, dirMemory);
    var (fs1, ok) := OpenRoot(fs, rootMemory, dirMemory);
    if ok {
      CreateKeepsInv(fs1, name, length, env);
      CreateFrees(fs1, name, length, env);
      CloseRoot(CreateIn(fs1, name, length, env).0);
    }
  }

  /** A call turns the mark of a sector from used to free exactly if the sector
      belonged to an inode that ceases to exist in it (see ReleasedExactly). */
  lemma StepFrees(fs: State, c: Call, x: nat)
    requires Inv(fs) && SizesOk(fs) && Legal(fs, c) && x < |fs.used| && fs.used[x]
    ensures x < |Step(fs, c).used|
    ensures !Step(fs, c).used[x] <==>
            exists s :: s in fs.owned && s !in Step(fs, c).owned && Occupies(x, s, fs.owned[s])
  {
    match c
    case CreateCall(name, length, rootMemory, dirMemory, env) =>
      CreateFileFrees(fs, name, length, rootMemory, dirMemory, env);
    case OpenCall(name, rootMemory, dirMemory, seen, memory, fileMemory) =>
      OpenFrees(fs, name, rootMemory, dirMemory, seen, memory, fileMemory);
    case RemoveCall(name, rootMemory, dirMemory, seen, memory, wrote) =>
      RemoveFrees(fs, name, rootMemory, dirMemory, seen, memory, wrote);
    case ReopenCall(s) =>
      SameFrees(fs, Step(fs, c));
    case CloseCall(s) =>
      CloseFrees(fs, OpenIndex(fs.open, s));
    assert !Step(fs, c).used[x] <==> Dropped(fs, Step(fs, c), x);
  }

  // ---------------------------------------------------------------------
  // Sectors that are accounted for
  // ---------------------------------------------------------------------

  ghost predicate RemovedOpen(open: seq<Open>, s: nat) {
    exists k :: 0 <= k < |open| && open[k].sector == s && open[k].removed
  }

  /** The inode at s has a name, or is removed but still open, or belongs to the
      file system itself. */
  ghost predicate Kept(fs: State, s: nat) {
    s <= ROOT_DIR_SECTOR || RemovedOpen(fs.open, s) || exists i: nat :: Names(fs.dir, i, s)
  }

  /** Sector x is, or belongs to, the inode whose header is on the disk at s. */
  ghost predicate OnDisk(fs: State, s: nat, x: nat) {
    s < |fs.disk| && fs.disk[s].Header? && Occupies(x, s, fs.disk[s].data)
  }

  /** The sectors marked used are those of the inodes that a name leads to or
      whose last close will release them. */
  ghost predicate Accounted(fs: State) {
    forall x: nat :: x < |fs.used| ==> (fs.used[x] <==> exists s :: Kept(fs, s) && OnDisk(fs, s, x))
  }

  /** Only sectors of existing inodes are marked used. */
  ghost predicate Exact(fs: State) {
    forall x: nat :: x < |fs.used| && fs.used[x] ==> exists s :: s in fs.owned && Occupies(x, s, fs.owned[s])
  }

  ghost predicate NoStrays(fs: State) {
    forall s :: s in fs.owned ==> Kept(fs, s)
  }

  lemma KeptExists(fs: State, s: nat)
    requires Inv(fs) && Kept(fs, s)
    ensures s in fs.owned && s < |fs.disk| && fs.disk[s] == Header(fs.owned[s])
            && InodeOk(fs.used, fs.disk, s, fs.owned[s])
  {
    assert s in fs.owned;
    assert InodeOk(fs.used, fs.disk, s, fs.owned[s]);
  }

  lemma AccountedMeans(fs: State)
    requires Inv(fs)
    ensures Accounted(fs) <==> Exact(fs) && NoStrays(fs)
  {
    if Accounted(fs) {
      AccountedExact(fs);
      AccountedStrays(fs);
    } else {
      ExactAccounted(fs);
    }
  }

  lemma AccountedExact(fs: State)
    requires Inv(fs) && Accounted(fs)
    ensures Exact(fs)
  {
    forall x: nat | x < |fs.used| && fs.used[x] ensures exists s :: s in fs.owned && Occupies(x, s, fs.owned[s]) {
      var s :| Kept(fs, s) && OnDisk(fs, s, x);
      KeptExists(fs, s);
    }
  }

  lemma AccountedStrays(fs: State)
    requires Inv(fs) && Accounted(fs)
    ensures NoStrays(fs)
  {
    forall s | s in fs.owned ensures Kept(fs, s) {
      assert InodeOk(fs.used, fs.disk, s, fs.owned[s]) && Occupies(s, s, fs.owned[s]);
      var t :| Kept(fs, t) && OnDisk(fs, t, s);
      KeptExists(fs, t);
      assert t != s ==> Apart(t, fs.owned[t], s, fs.owned[s]);
    }
  }

  lemma ExactAccounted(fs: State)
    requires Inv(fs)
    ensures Exact(fs) && NoStrays(fs) ==> Accounted(fs)
  {
    if Exact(fs) && NoStrays(fs) {
      forall x: nat | x < |fs.used| ensures fs.used[x] <==> exists s :: Kept(fs, s) && OnDisk(fs, s, x) {
        if fs.used[x] {
          var s :| s in fs.owned && Occupies(x, s, fs.owned[s]);
          KeptExists(fs, s);
          assert Kept(fs, s) && OnDisk(fs, s, x);
        }
        forall s | Kept(fs, s) && OnDisk(fs, s, x) ensures fs.used[x] {
          KeptExists(fs, s);
        }
      }
    }
  }

  // ---------------------------------------------------------------------
  // Steps that lose nothing and recover nothing
  // ---------------------------------------------------------------------

  ghost predicate Balanced(fs: State, fs': State) {
    (Exact(fs') <==> Exact(fs)) && (NoStrays(fs') <==> NoStrays(fs))
  }

  lemma SameKept(fs: State, fs': State)
    requires fs'.used == fs.used && fs'.owned == fs.owned
    requires forall s :: Kept(fs, s) <==> Kept(fs', s)
    ensures Balanced(fs, fs')
  {
  }

  lemma SameOpen(fs: State, fs': State)
    requires SameFiles(fs, fs') && forall s :: RemovedOpen(fs.open, s) <==> RemovedOpen(fs'.open, s)
    ensures Balanced(fs, fs')
  {
    forall s ensures Kept(fs, s) <==> Kept(fs', s) {
    }
    SameKept(fs, fs');
  }

  lemma OpenBalanced(fs: State, s: nat, memory: bool)
    ensures Balanced(fs, InodeOpen(fs, s, memory).0)
  {
    var fs', k := InodeOpen(fs, s, memory).0, OpenIndex(fs.open, s);
    if k < |fs.open| {
      CountOnly(fs.open, k, fs.open[k].cnt + 1);
      SameOpen(fs, fs');
    } else if memory {
      forall t ensures RemovedOpen(fs.open, t) <==> RemovedOpen(fs'.open, t) {
        if RemovedOpen(fs.open, t) {
          var j :| 0 <= j < |fs.open| && fs.open[j].sector == t && fs.open[j].removed;
          assert fs'.open[j + 1] == fs.open[j];
        }
        if RemovedOpen(fs'.open, t) {
          var j :| 0 <= j < |fs'.open| && fs'.open[j].sector == t && fs'.open[j].removed;
          assert fs'.open[j] == fs.open[j - 1];
        }
      }
      SameOpen(fs, fs');
    }
  }

  /** Counting openers removes nothing. */
  lemma CountOnly(open: seq<Open>, k: nat, cnt: nat)
    requires k < |open|
    ensures forall s :: RemovedOpen(open, s) <==> RemovedOpen(open[k := open[k].(cnt := cnt)], s)
  {
    var open' := open[k := open[k].(cnt := cnt)];
    assert forall i :: 0 <= i < |open| ==> open'[i].sector == open[i].sector && open'[i].removed == open[i].removed;
  }

  lemma RemovedWithout(open: seq<Open>, k: nat, s: nat)
    requires k < |open| && forall i, j :: 0 <= i < j < |open| ==> open[i].sector != open[j].sector
    ensures RemovedOpen(Without(open, k), s) <==> RemovedOpen(open, s) && !(s == open[k].sector && open[k].removed)
  {
    var open' := Without(open, k);
    if RemovedOpen(open', s) {
      var i :| 0 <= i < |open'| && open'[i].sector == s && open'[i].removed;
      WithoutIndex(open, k, i);
      assert open[if i < k then i else i + 1] == open'[i];
    }
    if RemovedOpen(open, s) && !(s == open[k].sector && open[k].removed) {
      var i :| 0 <= i < |open| && open[i].sector == s && open[i].removed;
      WithoutIndex(open, k, if i < k then i else i - 1);
    }
  }

  lemma CloseBalanced(fs: State, k: nat)
    requires Inv(fs)
    ensures Balanced(fs, InodeClose(fs, k))
  {
    if k < |fs.open| {
      if LastClose(fs, k) {
        LastCloseExact(fs, k);
        LastCloseStrays(fs, k);
      } else if fs.open[k].cnt > 1 {
        CountOnly(fs.open, k, fs.open[k].cnt - 1);
        SameOpen(fs, InodeClose(fs, k));
      } else {
        forall s ensures RemovedOpen(Without(fs.open, k), s) <==> RemovedOpen(fs.open, s) {
          RemovedWithout(fs.open, k, s);
        }
        SameOpen(fs, InodeClose(fs, k));
      }
    }
  }

  lemma LastCloseExact(fs: State, k: nat)
    requires Inv(fs) && LastClose(fs, k)
    ensures Exact(InodeClose(fs, k)) <==> Exact(fs)
  {
    ReleaseInode(fs.used, fs.disk, fs.owned, fs.open[k].sector);
    hide DiskOk, DirOk, RemovedOk, AllBits, Release;
    ReleaseExact(fs, InodeClose(fs, k), fs.open[k].sector);
  }

  /** Releasing the sectors of an inode and forgetting it. */
  lemma ReleaseExact(fs: State, fs': State, s: nat)
    requires s in fs.owned && s + 1 <= |fs.used| && fs.owned[s].start + Sectors(fs.owned[s].length) <= |fs.used|
    requires fs'.used == Release(Release(fs.used, s, 1), fs.owned[s].start, Sectors(fs.owned[s].length))
    requires fs'.owned == fs.owned - {s}
    ensures Exact(fs') <==> Exact(fs)
  {
    if Exact(fs) {
      forall x: nat | x < |fs'.used| && fs'.used[x] ensures exists t :: t in fs'.owned && Occupies(x, t, fs'.owned[t]) {
        var t :| t in fs.owned && Occupies(x, t, fs.owned[t]);
        assert t in fs'.owned;
      }
    }
    if Exact(fs') {
      forall x: nat | x < |fs.used| && fs.used[x] ensures exists t :: t in fs.owned && Occupies(x, t, fs.owned[t]) {
        if fs'.used[x] {
          var t :| t in fs'.owned && Occupies(x, t, fs'.owned[t]);
          assert t in fs.owned;
        } else {
          assert s in fs.owned && Occupies(x, s, fs.owned[s]);
        }
      }
    }
  }

  lemma LastCloseStrays(fs: State, k: nat)
    requires Inv(fs) && LastClose(fs, k)
    ensures NoStrays(InodeClose(fs, k)) <==> NoStrays(fs)
  {
    var fs', s := InodeClose(fs, k), fs.open[k].sector;
    LastCloseKeepsInv(fs, k);
    assert RemovedOpen(fs.open, s);
    forall t | t != s ensures Kept(fs', t) <==> Kept(fs, t) {
      RemovedWithout(fs.open, k, t);
    }
  }

  lemma CloseSectorBalanced(fs: State, s: nat)
    requires Inv(fs)
    ensures Balanced(fs, CloseSector(fs, s))
  {
    CloseBalanced(fs, OpenIndex(fs.open, s));
  }

  lemma OpenRootBalanced(fs: State, inodeMemory: bool, dirMemory: bool)
    requires Inv(fs)
    ensures Balanced(fs, OpenRoot(fs, inodeMemory, dirMemory).0)
  {
    hide Balanced;
    RootNotRemoved(fs);
    OpenKeepsInv(fs, ROOT_DIR_SECTOR, inodeMemory);
    OpenBalanced(fs, ROOT_DIR_SECTOR, inodeMemory);
    var fs1 := InodeOpen(fs, ROOT_DIR_SECTOR, inodeMemory).0;
    CloseSectorBalanced(fs1, ROOT_DIR_SECTOR);
    BalancedTwice(fs, fs1, CloseSector(fs1, ROOT_DIR_SECTOR));
    BalancedTwice(fs, fs, fs);
  }

  lemma BalancedTwice(fs: State, fs1: State, fs2: State)
    ensures Balanced(fs, fs1) && Balanced(fs1, fs2) ==> Balanced(fs, fs2)
    ensures Balanced(fs, fs)
  {
  }

  /** The erased inode trades its name for the removed mark. */
  lemma EraseBalanced(fs: State, i: nat, k: nat)
    requires Inv(fs) && i < |fs.dir| && fs.dir[i].inUse && k < |fs.open| && fs.open[k].sector == fs.dir[i].sector
    ensures Balanced(fs, Erased(fs, i, k))
  {
    var fs', s := Erased(fs, i, k), fs.dir[i].sector;
    assert Names(fs.dir, i, s);
    assert fs'.open[k].sector == s && fs'.open[k].removed;
    forall t ensures Kept(fs, t) <==> Kept(fs', t) {
      if t != s { EraseOthers(fs, i, k, t); }
    }
    SameKept(fs, fs');
  }

  lemma EraseOthers(fs: State, i: nat, k: nat, t: nat)
    requires i < |fs.dir| && fs.dir[i].inUse && k < |fs.open| && fs.open[k].sector == fs.dir[i].sector != t
    ensures Kept(fs, t) <==> Kept(Erased(fs, i, k), t)
  {
    var fs' := Erased(fs, i, k);
    forall j: nat ensures Names(fs.dir, j, t) <==> Names(fs'.dir, j, t) {
    }
    assert forall j :: 0 <= j < |fs.open| && j != k ==> fs'.open[j] == fs.open[j];
    assert RemovedOpen(fs.open, t) <==> RemovedOpen(fs'.open, t);
  }

  lemma DirRemoveBalanced(fs: State, name: string, seen: nat, memory: bool, wrote: bool)
    requires Inv(fs)
    ensures Balanced(fs, DirRemove(fs, name, seen, memory, wrote).0)
  {
    hide Balanced;
    var i := Lookup(fs.dir, name, seen);
    BalancedTwice(fs, fs, fs);
    if i.Some? {
      var s := fs.dir[i.value].sector;
      NamedNotRemoved(fs, i.value);
      OpenKeepsInv(fs, s, memory);
      OpenBalanced(fs, s, memory);
      var (fs1, ok) := InodeOpen(fs, s, memory);
      if ok {
        OpenPosition(fs1.open, s);
        var k := OpenIndex(fs1.open, s);
        EraseCloseBalanced(fs1, i.value, k);
        CloseBalanced(fs1, k);
        BalancedTwice(fs, fs1, InodeClose(fs1, k));
        BalancedTwice(fs, fs1, InodeClose(Erased(fs1, i.value, k), k));
      }
    }
  }

  lemma EraseCloseBalanced(fs: State, i: nat, k: nat)
    requires Inv(fs) && i < |fs.dir| && fs.dir[i].inUse && k < |fs.open| && fs.open[k].sector == fs.dir[i].sector
    ensures Balanced(fs, InodeClose(Erased(fs, i, k), k))
  {
    hide Balanced, Inv;
    RemoveKeepsInv(fs, i, k);
    EraseBalanced(fs, i, k);
    CloseBalanced(Erased(fs, i, k), k);
    BalancedTwice(fs, Erased(fs, i, k), InodeClose(Erased(fs, i, k), k));
  }

  lemma RemoveBalanced(fs: State, name: string, rootMemory: bool, dirMemory: bool, seen: nat, memory: bool, wrote: bool)
    requires Inv(fs)
    ensures Balanced(fs, Remove(fs, name, rootMemory, dirMemory, seen, memory, wrote).0)
  {
    hide Balanced, Inv;
    OpenRootKeepsInv(fs, rootMemory, dirMemory);
    OpenRootBalanced(fs, rootMemory, dirMemory);
    var (fs1, ok) := OpenRoot(fs, rootMemory, dirMemory);
    if ok {
      DirRemoveKeepsInv(fs1, name, seen, memory, wrote);
      DirRemoveBalanced(fs1, name, seen, memory, wrote);
      var fs2 := DirRemove(fs1, name, seen, memory, wrote).0;
      CloseSectorBalanced(fs2, ROOT_DIR_SECTOR);
      BalancedTwice(fs, fs1, fs2);
      BalancedTwice(fs, fs2, CloseSector(fs2, ROOT_DIR_SECTOR));
    }
  }

  lemma OpenInBalanced(fs: State, name: string, seen: nat, memory: bool, fileMemory: bool)
    requires Inv(fs)
    ensures Balanced(fs, OpenIn(fs, name, seen, memory, fileMemory).0)
  {
    hide Balanced, Inv;
    LookupOpenKeepsInv(fs, name, seen, memory);
    var (fs1, s) := LookupOpen(fs, name, seen, memory);
    LookupOpenBalanced(fs, name, seen, memory);
    CloseSectorKeepsInv(fs1, ROOT_DIR_SECTOR);
    CloseSectorBalanced(fs1, ROOT_DIR_SECTOR);
    var fs2 := CloseSector(fs1, ROOT_DIR_SECTOR);
    BalancedTwice(fs, fs1, fs2);
    if s.Some? {
      CloseSectorBalanced(fs2, s.value);
      BalancedTwice(fs, fs2, CloseSector(fs2, s.value));
    }
  }

  lemma LookupOpenBalanced(fs: State, name: string, seen: nat, memory: bool)
    ensures Balanced(fs, LookupOpen(fs, name, seen, memory).0)
  {
    hide Balanced;
    BalancedTwice(fs, fs, fs);
    var i := Lookup(fs.dir, name, seen);
    if i.Some? { OpenBalanced(fs, fs.dir[i.value].sector, memory); }
  }

  lemma OpenFileBalanced(fs: State, name: string, rootMemory: bool, dirMemory: bool, seen: nat, memory: bool,
      fileMemory: bool)
    requires Inv(fs)
    ensures Balanced(fs, OpenFile(fs, name, rootMemory, dirMemory, seen, memory, fileMemory).0)
  {
    hide Balanced, Inv;
    OpenRootKeepsInv(fs, rootMemory, dirMemory);
    OpenRootBalanced(fs, rootMemory, dirMemory);
    var (fs1, ok) := OpenRoot(fs, rootMemory, dirMemory);
    if ok {
      OpenInBalanced(fs1, name, seen, memory, fileMemory);
      BalancedTwice(fs, fs1, OpenIn(fs1, name, seen, memory, fileMemory).0);
    }
  }

  // ---------------------------------------------------------------------
  // filesys_create() loses sectors in two cases
  // ---------------------------------------------------------------------

  predicate AddSucceeds(dir: seq<Entry>, name: string, env: CreateEnv) {
    && ValidName(name) && Lookup(dir, name, env.seen) == None && FreeSlot(dir, env.seenFree) < |dir| && env.wrote
  }

  /** dir_add() fails after inode_create() took data sectors: the caller gives back
      the sector of the inode only. */
  ghost predicate Leaks(fs: State, name: string, length: nat, env: CreateEnv) {
    ReachesAdd(fs, length, env) && length > 0 && !AddSucceeds(fs.dir, name, env)
  }

  /** dir_add() writes over an entry in use, because the search for a free one was
      cut short there. */
  ghost predicate Overwrites(fs: State, name: string, length: nat, env: CreateEnv) {
    ReachesAdd(fs, length, env) && AddSucceeds(fs.dir, name, env) && fs.dir[FreeSlot(fs.dir, env.seenFree)].inUse
  }

  lemma CreateAccount(fs: State, name: string, length: nat, env: CreateEnv)
    requires Inv(fs) && SizesOk(fs)
    ensures var fs' := CreateIn(fs, name, length, env).0;
            && (Exact(fs') <==> Exact(fs) && !Leaks(fs, name, length, env))
            && (NoStrays(fs') <==> NoStrays(fs) && !Overwrites(fs, name, length, env))
  {
    AllocatedWasFree(fs.used, 1, env.map1);
    var (used1, r) := Allocate(fs.used, 1, env.map1);
    if r.Some? {
      var s := r.value;
      AllocatedReserved(fs, s);
      AllocatedWasFree(used1, Sectors(length), env.map2);
      var (fs2, created) := InodeCreate(fs.(used := used1), s, length, env.memory, env.map2);
      if !created {
        UndoReserve(fs.used, s);
      } else if AddSucceeds(fs.dir, name, env) {
        CreatedAccount(fs, s, length, fs2, DirAdd(fs.dir, name, s, env.seen, env.seenFree, env.wrote).0,
            FreeSlot(fs.dir, env.seenFree));
      } else {
        assert fs2.owned - {s} == fs.owned;
        assert forall x :: 0 <= x < |used1| && !used1[x] ==> !fs.used[x];
        LostExtent(fs, s, fs2.owned[s], Release(fs2.used, s, 1));
        assert CreateIn(fs, name, length, env).0 == fs2.(used := Release(fs2.used, s, 1), owned := fs2.owned - {s});
        forall t ensures Kept(fs, t) <==> Kept(CreateIn(fs, name, length, env).0, t) {
        }
      }
    }
  }

  /** The new inode is named; if its entry took the place of another, that one is lost. */
  lemma CreatedAccount(fs: State, s: nat, length: nat, fs2: State, dir': seq<Entry>, slot: nat)
    requires Inv(fs) && s < |fs.used| && !fs.used[s] && s !in fs.owned && s in fs2.owned
    requires var e := fs2.owned[s];
             && e.start + Sectors(e.length) <= |fs.used|
             && fs2.used == SetBits(SetBits(fs.used, s, 1, true), e.start, Sectors(e.length), true)
             && fs2.owned == fs.owned[s := e] && fs2.open == fs.open
    requires slot < |fs.dir| == |dir'| && ValidName(dir'[slot].name)
             && dir' == fs.dir[slot := Entry(true, s, dir'[slot].name)]
    requires AllBits(SetBits(fs.used, s, 1, true), fs2.owned[s].start, Sectors(fs2.owned[s].length), false)
    ensures var fs' := fs2.(dir := dir');
            && (Exact(fs') <==> Exact(fs)) && (NoStrays(fs') <==> NoStrays(fs) && !fs.dir[slot].inUse)
  {
    TakenExact(fs, fs2.(dir := dir'), s);
    NamedStrays(fs, fs2.(dir := dir'), s, slot);
  }

  lemma TakenExact(fs: State, fs': State, s: nat)
    requires Inv(fs) && s < |fs.used| && !fs.used[s] && s !in fs.owned && s in fs'.owned
    requires var e := fs'.owned[s];
             && e.start + Sectors(e.length) <= |fs.used|
             && fs'.used == SetBits(SetBits(fs.used, s, 1, true), e.start, Sectors(e.length), true)
             && fs'.owned == fs.owned[s := e]
             && AllBits(SetBits(fs.used, s, 1, true), e.start, Sectors(e.length), false)
    ensures Exact(fs') <==> Exact(fs)
  {
    var e := fs'.owned[s];
    if Exact(fs) {
      forall x: nat | x < |fs'.used| && fs'.used[x] ensures exists t :: t in fs'.owned && Occupies(x, t, fs'.owned[t]) {
        if Occupies(x, s, e) {
          assert s in fs'.owned;
        } else {
          var t :| t in fs.owned && Occupies(x, t, fs.owned[t]);
          assert t in fs'.owned && fs'.owned[t] == fs.owned[t];
        }
      }
    }
    var used1 := SetBits(fs.used, s, 1, true);
    forall x: nat | InExtent(x, e) ensures !used1[x] && !fs.used[x] {
      assert used1[x] == (x == s || fs.used[x]);
    }
    if Exact(fs') {
      forall x: nat | x < |fs.used| && fs.used[x] ensures exists t :: t in fs.owned && Occupies(x, t, fs.owned[t]) {
        assert fs'.used[x];
        var t :| t in fs'.owned && Occupies(x, t, fs'.owned[t]);
        assert t in fs.owned;
      }
    }
  }

  lemma NamedStrays(fs: State, fs': State, s: nat, slot: nat)
    requires Inv(fs) && s !in fs.owned && s in fs'.owned && fs'.owned == fs.owned[s := fs'.owned[s]]
             && fs'.open == fs.open
    requires slot < |fs.dir| == |fs'.dir| && fs'.dir == fs.dir[slot := fs'.dir[slot]] && Names(fs'.dir, slot, s)
    ensures NoStrays(fs') <==> NoStrays(fs) && !fs.dir[slot].inUse
  {
    var lost := fs.dir[slot].sector;
    assert Kept(fs', s);
    forall t | t != s && !(fs.dir[slot].inUse && t == lost) ensures Kept(fs, t) <==> Kept(fs', t) {
      forall j: nat ensures Names(fs.dir, j, t) <==> Names(fs'.dir, j, t) {
      }
    }
    if fs.dir[slot].inUse {
      assert Names(fs.dir, slot, lost);
      assert lost in fs'.owned && lost > ROOT_DIR_SECTOR;
      forall j: nat ensures !Names(fs'.dir, j, lost) {
      }
      assert !RemovedOpen(fs'.open, lost);
      assert !Kept(fs', lost);
    }
  }

  lemma LostExtent(fs: State, s: nat, e: Extent, used': seq<bool>)
    requires Inv(fs) && s < |fs.used| && !fs.used[s]
    requires e.start + Sectors(e.length) <= |fs.used| && !InExtent(s, e)
    requires AllBits(fs.used, e.start, Sectors(e.length), false)
    requires used' == Release(SetBits(SetBits(fs.used, s, 1, true), e.start, Sectors(e.length), true), s, 1)
    ensures Exact(fs.(used := used')) <==> Exact(fs) && e.length == 0
  {
    if e.length == 0 {
      assert used' == fs.used;
    } else {
      assert Sectors(e.length) > 0 && used'[e.start] && !fs.used[e.start];
      forall t | t in fs.owned ensures !Occupies(e.start, t, fs.owned[t]) {
        assert InodeOk(fs.used, fs.disk, t, fs.owned[t]);
      }
    }
  }

  // ---------------------------------------------------------------------
  // Calls and runs
  // ---------------------------------------------------------------------

  /** This call loses sectors. */
  ghost predicate Loses(fs: State, c: Call) {
    && c.CreateCall? && OpenRoot(fs, c.rootMemory, c.dirMemory).1
    && (Leaks(fs, c.name, c.length, c.env) || Overwrites(fs, c.name, c.length, c.env))
  }

  lemma CreateFileAccount(fs: State, name: string, length: nat, rootMemory: bool, dirMemory: bool, env: CreateEnv)
    requires Inv(fs) && SizesOk(fs)
    ensures var c := CreateCall(name, length, rootMemory, dirMemory, env);
            Exact(Step(fs, c)) && NoStrays(Step(fs, c)) <==> Exact(fs) && NoStrays(fs) && !Loses(fs, c)
  {
    hide Inv, Exact, NoStrays;
    OpenRootKeepsInv(fs, rootMemory, dirMemory);
    OpenRootBalanced(fs, rootMemory, dirMemory);
    var (fs1, ok) := OpenRoot(fs, rootMemory, dirMemory);
    if ok {
      CreateAccount(fs1, name, length, env);
      CreateKeepsInv(fs1, name, length, env);
      CloseSectorBalanced(CreateIn(fs1, name, length, env).0, ROOT_DIR_SECTOR);
    }
  }

  /** After a call everything is accounted for exactly if it was before and the call
      is not one of those: what is lost once stays lost. */
  lemma StepAccounted(fs: State, c: Call)
    requires Inv(fs) && SizesOk(fs) && Legal(fs, c)
    ensures Accounted(Step(fs, c)) <==> Accounted(fs) && !Loses(fs, c)
  {
    hide Inv, Exact, NoStrays, Accounted, Loses, Balanced, Step;
    StepKeepsInv(fs, c);
    AccountedMeans(fs);
    AccountedMeans(Step(fs, c));
    if c.CreateCall? {
      CreateFileAccount(fs, c.name, c.length, c.rootMemory, c.dirMemory, c.env);
    } else {
      OnlyCreateLoses(fs, c);
      OtherBalanced(fs, c);
      BalancedMeans(fs, Step(fs, c));
    }
  }

  lemma BalancedMeans(fs: State, fs': State)
    requires Balanced(fs, fs')
    ensures Exact(fs') && NoStrays(fs') <==> Exact(fs) && NoStrays(fs)
  {
  }

  lemma OtherBalanced(fs: State, c: Call)
    requires Inv(fs) && !c.CreateCall?
    ensures Balanced(fs, Step(fs, c))
  {
    hide Inv, Balanced, Remove, OpenFile, Reopen, CloseSector;
    match c
    case OpenCall(name, rootMemory, dirMemory, seen, memory, fileMemory) =>
      OpenFileBalanced(fs, name, rootMemory, dirMemory, seen, memory, fileMemory);
    case RemoveCall(name, rootMemory, dirMemory, seen, memory, wrote) =>
      RemoveBalanced(fs, name, rootMemory, dirMemory, seen, memory, wrote);
    case ReopenCall(s) =>
      ReopenBalanced(fs, OpenIndex(fs.open, s));
    case CloseCall(s) =>
      CloseSectorBalanced(fs, s);
  }

  lemma OnlyCreateLoses(fs: State, c: Call)
    requires !c.CreateCall?
    ensures !Loses(fs, c)
  {
  }

  lemma ReopenBalanced(fs: State, k: nat)
    ensures Balanced(fs, Reopen(fs, k))
  {
    if k < |fs.open| {
      CountOnly(fs.open, k, fs.open[k].cnt + 1);
      SameOpen(fs, Reopen(fs, k));
    }
  }

  ghost predicate NothingLost(fs: State, run: seq<Call>)
    decreases |run|
  {
    run != [] ==> !Loses(fs, run[0]) && NothingLost(Step(fs, run[0]), run[1..])
  }

  lemma {:induction false} RunAccounted(fs: State, run: seq<Call>)
    requires Inv(fs) && SizesOk(fs) && LegalRun(fs, run)
    ensures Accounted(After(fs, run)) <==> Accounted(fs) && NothingLost(fs, run)
    decreases |run|
  {
    hide Inv, SizesOk, Legal, Accounted, Loses, Step;
    if run != [] {
      StepKeepsInv(fs, run[0]);
      StepAccounted(fs, run[0]);
      RunAccounted(Step(fs, run[0]), run[1..]);
    }
  }

  lemma FormatAccounted(disk: seq<Block>)
    requires Format(disk).Some?
    ensures Accounted(Format(disk).value)
  {
    FormatInv(disk);
    var fs := Format(disk).value;
    var blank := Blank(disk);
    var n := 4 * ElemCnt(|disk|);
    AllocatedWasFree(blank.used, Sectors(n), true);
    var fs1 := InodeCreate(blank, FREE_MAP_SECTOR, n, true, true).0;
    AllocatedWasFree(fs1.used, Sectors(320), true);
    forall x: nat | x < |fs.used| && fs.used[x] ensures exists s :: s in fs.owned && Occupies(x, s, fs.owned[s]) {
      assert FREE_MAP_SECTOR in fs.owned && ROOT_DIR_SECTOR in fs.owned;
      assert Occupies(x, FREE_MAP_SECTOR, fs.owned[FREE_MAP_SECTOR])
             || Occupies(x, ROOT_DIR_SECTOR, fs.owned[ROOT_DIR_SECTOR]);
    }
    assert NoStrays(fs);
    AccountedMeans(fs);
  }

  /** In any run from a formatted disk: the sectors marked used are those of the
      inodes that are named or removed but open, exactly unless some
      filesys_create() of the run leaked an extent or wrote over an entry. */
  lemma AccountedExactly(disk: seq<Block>, run: seq<Call>)
    requires Format(disk).Some? && LegalRun(Format(disk).value, run)
    ensures Accounted(After(Format(disk).value, run)) <==> NothingLost(Format(disk).value, run)
  {
    FormatInv(disk);
    FormatAccounted(disk);
    RunAccounted(Format(disk).value, run);
  }

  // ---------------------------------------------------------------------
  // Instances: a disk of eight sectors
  // ---------------------------------------------------------------------

  lemma AllocateFirstFree(used: seq<bool>, k: nat)
    requires k < |used| && !used[k] && forall i :: 0 <= i < k ==> used[i]
    ensures Allocate(used, 1, true) == (used[k := true], Some(k))
  {
    FirstGroupIsLeast(used, 0, 1, false);
    assert AllBits(used, k, 1, false);
    var r := FirstGroup(used, 0, 1, false);
    assert r.Some? && !used[r.value];
    assert SetBits(used, k, 1, true) == used[k := true];
  }

  lemma AllocateNothing(used: seq<bool>)
    ensures Allocate(used, 0, true) == (used, Some(0))
  {
    assert AllBits(used, 0, 0, false);
    assert SetBits(used, 0, 0, true) == used;
  }

  /** The first k of the eight sectors are used. */
  function FirstUsed(k: nat): seq<bool> {
    seq(8, i => i < k)
  }

  lemma TakeNext(k: nat)
    requires k < 8
    ensures Allocate(FirstUsed(k), 1, true) == (FirstUsed(k + 1), Some(k))
  {
    AllocateFirstFree(FirstUsed(k), k);
    assert FirstUsed(k)[k := true] == FirstUsed(k + 1);
  }

  /** A formatted disk of eight sectors. */
  ghost predicate Fresh(fs: State) {
    fs.used == FirstUsed(4) && |fs.disk| == 8 && |fs.dir| == 16 && forall i :: 0 <= i < 16 ==> !fs.dir[i].inUse
  }

  /** ... and the same disk with one empty file. */
  ghost predicate OneFile(fs: State) {
    && fs.used == FirstUsed(5) && |fs.disk| == 8 && |fs.dir| == 16
    && fs.dir[0].inUse && fs.dir[0].name == "a" && forall i :: 1 <= i < 16 ==> !fs.dir[i].inUse
  }

  lemma FormatEight(disk: seq<Block>)
    requires |disk| == 8
    ensures Format(disk).Some?
    ensures Fresh(Format(disk).value)
  {
    assert Blank(disk).used == FirstUsed(2);
    assert Sectors(4 * ElemCnt(8)) == 1 && Sectors(320) == 1;
    TakeNext(2);
    TakeNext(3);
  }

  /** filesys_create() with memory and disk at hand, but with directory reads that
      may be cut short. */
  function MakeCall(name: string, length: nat, seen: nat, seenFree: nat): Call {
    CreateCall(name, length, true, true, CreateEnv(true, true, true, seen, seenFree, true))
  }

  /** An empty file "a", the first on a disk of eight sectors. */
  function FirstFile(): Call {
    MakeCall("a", 0, 16, 16)
  }

  lemma OpenRootWorks(fs: State)
    requires Inv(fs)
    ensures OpenRoot(fs, true, true).1 && SameFiles(fs, OpenRoot(fs, true, true).0)
  {
    OpenRootKeepsInv(fs, true, true);
  }

  lemma AfterFirst(disk: seq<Block>)
    requires |disk| == 8
    ensures Format(disk).Some? && Inv(Format(disk).value) && SizesOk(Format(disk).value)
    ensures var fs := Step(Format(disk).value, FirstFile());
            Inv(fs) && SizesOk(fs) && Accounted(fs) && NamesUnique(fs.dir) && OneFile(fs)
  {
    FormatInv(disk);
    FormatEight(disk);
    FormatAccounted(disk);
    var fs0 := Format(disk).value;
    hide Inv, Accounted, OneFile, Loses, NamesUnique, Format, Step;
    StepKeepsInv(fs0, FirstFile());
    FirstStep(fs0);
    FirstLosesNothing(fs0);
    StepAccounted(fs0, FirstFile());
    OneFileUnique(Step(fs0, FirstFile()));
  }

  lemma OneFileUnique(fs: State)
    requires OneFile(fs)
    ensures NamesUnique(fs.dir)
  {
  }

  lemma FirstStep(fs: State)
    requires Inv(fs) && SizesOk(fs) && Fresh(fs)
    ensures OneFile(Step(fs, FirstFile()))
  {
    hide Inv;
    OpenRootWorks(fs);
    OpenRootKeepsInv(fs, true, true);
    var fs1 := OpenRoot(fs, true, true).0;
    FirstIn(fs1);
    CreateKeepsInv(fs1, "a", 0, FirstFile().env);
    CloseRoot(CreateIn(fs1, "a", 0, FirstFile().env).0);
  }

  lemma FirstIn(fs: State)
    requires Fresh(fs)
    ensures OneFile(CreateIn(fs, "a", 0, FirstFile().env).0)
  {
    TakeNext(4);
    AllocateNothing(FirstUsed(5));
    assert Lookup(fs.dir, "a", 16) == None;
    assert FreeSlot(fs.dir, 16) == 0;
  }

  lemma FirstLosesNothing(fs: State)
    requires Fresh(fs)
    ensures !Loses(fs, FirstFile())
  {
    assert Lookup(fs.dir, "a", 16) == None;
    assert FreeSlot(fs.dir, 16) == 0;
  }

  /** With sectors 5 to 7 free a file of at most one sector gets as far as dir_add(). */
  lemma SecondReachesAdd(fs: State, length: nat, seen: nat, seenFree: nat)
    requires OneFile(fs) && length <= 1
    ensures ReachesAdd(fs, length, CreateEnv(true, true, true, seen, seenFree, true))
  {
    hide Allocate, FirstUsed, Zeroed;
    TakeNext(5);
    TakeNext(6);
    AllocateNothing(FirstUsed(6));
    assert Sectors(0) == 0 && Sectors(1) == 1;
  }

  lemma TwoCalls(fs: State, c: Call, d: Call)
    requires !c.ReopenCall? && !c.CloseCall? && !d.ReopenCall? && !d.CloseCall?
    ensures LegalRun(fs, [c, d]) && After(fs, [c, d]) == Step(Step(fs, c), d)
  {
    assert [c, d][1..] == [d] && [d][1..] == [];
    assert After(Step(fs, c), [d]) == Step(Step(fs, c), d);
  }

  /** Creating an existing file with one byte in it loses the data sector. */
  lemma LeakExample(disk: seq<Block>)
    requires |disk| == 8
    ensures var run := [FirstFile(), MakeCall("a", 1, 16, 16)];
            && Format(disk).Some? && LegalRun(Format(disk).value, run)
            && !Accounted(After(Format(disk).value, run))
  {
    hide Inv, Accounted, Format;
    AfterFirst(disk);
    var fs0, d := Format(disk).value, MakeCall("a", 1, 16, 16);
    var fs := Step(fs0, FirstFile());
    SecondReachesAdd(fs, 1, 16, 16);
    OpenRootWorks(fs);
    assert Lookup(fs.dir, "a", 16) == Some(0);
    StepAccounted(fs, d);
    TwoCalls(fs0, FirstFile(), d);
  }

  /** Creating another file while the search for a free slot cannot read the first
      entry loses the first file: its name is gone and its sector stays used. */
  lemma OverwriteExample(disk: seq<Block>)
    requires |disk| == 8
    ensures var run := [FirstFile(), MakeCall("b", 0, 16, 0)];
            && Format(disk).Some? && LegalRun(Format(disk).value, run)
            && !Accounted(After(Format(disk).value, run))
            && forall s :: !Binds(After(Format(disk).value, run).dir, "a", s)
  {
    hide Inv, Accounted, Format;
    AfterFirst(disk);
    var fs0, d := Format(disk).value, MakeCall("b", 0, 16, 0);
    var fs := Step(fs0, FirstFile());
    SecondReachesAdd(fs, 0, 16, 0);
    OpenRootWorks(fs);
    assert FreeSlot(fs.dir, 0) == 0;
    assert Lookup(fs.dir, "b", 16) == None;
    assert ValidName("b");
    StepAccounted(fs, d);
    SecondOverwrites(fs, d);
    TwoCalls(fs0, FirstFile(), d);
  }

  lemma SecondOverwrites(fs: State, d: Call)
    requires Inv(fs) && SizesOk(fs) && OneFile(fs) && d == MakeCall("b", 0, 16, 0)
    ensures forall s :: !Binds(Step(fs, d).dir, "a", s)
  {
    OpenRootWorks(fs);
    CreateDir(fs, "b", 0, true, true, d.env);
    SecondReachesAdd(fs, 0, 16, 0);
    var s :| Step(fs, d).dir == DirAdd(fs.dir, "b", s, 16, 0, true).0;
    assert FreeSlot(fs.dir, 0) == 0;
    assert Lookup(fs.dir, "b", 16) == None;
  }

  /** Creating the same file again while the search cannot read the first entry
      makes a second entry of that name. */
  lemma DuplicateExample(disk: seq<Block>)
    requires |disk| == 8
    ensures var run := [FirstFile(), MakeCall("a", 0, 0, 16)];
            && Format(disk).Some? && LegalRun(Format(disk).value, run)
            && |After(Format(disk).value, run).dir| == 16 && !NamesUnique(After(Format(disk).value, run).dir)
  {
    hide Inv, Accounted, Format;
    AfterFirst(disk);
    var fs0, d := Format(disk).value, MakeCall("a", 0, 0, 16);
    var fs := Step(fs0, FirstFile());
    SecondReachesAdd(fs, 0, 0, 16);
    OpenRootWorks(fs);
    assert FreeSlot(fs.dir, 16) == 1;
    assert ValidName("a");
    assert SecondEntry(fs.dir, "a", 0, 16, true);
    StepKeepsUnique(fs, d);
    TwoCalls(fs0, FirstFile(), d);
  }
}

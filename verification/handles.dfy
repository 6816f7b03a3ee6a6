/**
 The list of open inodes, and what filesys_open(), filesys_create() and
 filesys_remove() answer: every call of filesys/filesys.c is put against a ledger that
 knows only which calls were made and whether they succeeded.
 */
module Handles {
  import opened Common
  import opened Bitmaps
  import opened FileSystems

  // ---------------------------------------------------------------------
  // The open inode of a sector
  // ---------------------------------------------------------------------

  function Inode(open: seq<Open>, s: nat): Option<Open> {
    var k := OpenIndex(open, s);
    if k < |open| then Some(open[k]) else None
  }

  /** The openers of the inode at a sector, 0 if it is not open. */
  function Openers(open: seq<Open>, s: nat): nat {
    if Inode(open, s).Some? then Inode(open, s).value.cnt else 0
  }

  predicate Doomed(open: seq<Open>, s: nat) {
    Inode(open, s).Some? && Inode(open, s).value.removed
  }

  lemma InodeOpenIff(open: seq<Open>, s: nat)
    ensures Inode(open, s).Some? <==> IsOpen(open, s)
  {
    OpenSucceeds(open, s);
  }

  lemma SameIndex(a: seq<Open>, b: seq<Open>, t: nat)
    requires |a| == |b| && forall i :: 0 <= i < |a| ==> a[i].sector == b[i].sector
    ensures OpenIndex(a, t) == OpenIndex(b, t)
  {
    var i, j := OpenIndex(a, t), OpenIndex(b, t);
    assert i < |a| ==> b[i].sector == a[i].sector;
    assert j < |b| ==> a[j].sector == b[j].sector;
  }

  lemma Updated(open: seq<Open>, k: nat, o: Open, t: nat)
    requires k < |open| && k == OpenIndex(open, o.sector) && open[k].sector == o.sector
    ensures Inode(open[k := o], t) == if t == o.sector then Some(o) else Inode(open, t)
  {
    SameIndex(open, open[k := o], t);
  }

  lemma Pushed(open: seq<Open>, o: Open, t: nat)
    ensures Inode([o] + open, t) == if t == o.sector then Some(o) else Inode(open, t)
  {
    assert ([o] + open)[1..] == open;
  }

  lemma Dropped(open: seq<Open>, k: nat, t: nat)
    requires k < |open| && forall i, j :: 0 <= i < j < |open| ==> open[i].sector != open[j].sector
    ensures Inode(Without(open, k), t) == if t == open[k].sector then None else Inode(open, t)
  {
    var open' := Without(open, k);
    forall i | 0 <= i < |open'| ensures open'[i] == open[if i < k then i else i + 1] {
      WithoutIndex(open, k, i);
    }
    var i, j := OpenIndex(open, t), OpenIndex(open', t);
    if t != open[k].sector {
      if i < |open| { assert open'[if i < k then i else i - 1] == open[i]; }
      if j < |open'| { assert open[if j < k then j else j + 1] == open'[j]; }
    }
  }

  // ---------------------------------------------------------------------
  // inode_open() and inode_close()
  // ---------------------------------------------------------------------

  /** From open to open' the inode at s gained n openers (or lost them), and nothing else
      happened. */
  ghost predicate Gained(open: seq<Open>, open': seq<Open>, s: nat, n: int) {
    && (forall t :: Openers(open', t) == Openers(open, t) + (if t == s then n else 0))
    && (forall t :: Doomed(open', t) <==> Doomed(open, t) && !(t == s && Openers(open', t) == 0))
  }

  /** Only the inode at s changed, to r. */
  lemma OnlyChanged(open: seq<Open>, open': seq<Open>, s: nat, r: Option<Open>)
    requires forall t :: Inode(open', t) == if t == s then r else Inode(open, t)
    requires if r.Some? then r.value.cnt > 0 && r.value.removed == Doomed(open, s) else Openers(open, s) == 1
    ensures Gained(open, open', s, (if r.Some? then r.value.cnt else 0) - Openers(open, s))
  {
    hide Inode;
  }

  lemma CountsUp(open: seq<Open>, s: nat)
    requires OpenIndex(open, s) < |open|
    ensures var k := OpenIndex(open, s); Gained(open, open[k := open[k].(cnt := open[k].cnt + 1)], s, 1)
  {
    hide Gained;
    var k := OpenIndex(open, s);
    var o := open[k].(cnt := open[k].cnt + 1);
    assert o.sector == s && Inode(open, s) == Some(open[k]);
    UpdatedAll(open, k, o);
    OnlyChanged(open, open[k := o], s, Some(o));
  }

  lemma UpdatedAll(open: seq<Open>, k: nat, o: Open)
    requires k < |open| && k == OpenIndex(open, o.sector) && open[k].sector == o.sector
    ensures forall t :: Inode(open[k := o], t) == if t == o.sector then Some(o) else Inode(open, t)
  {
    hide Inode, OpenIndex;
    forall t ensures Inode(open[k := o], t) == if t == o.sector then Some(o) else Inode(open, t) {
      Updated(open, k, o, t);
    }
  }

  lemma PushOpens(open: seq<Open>, o: Open)
    requires OpenIndex(open, o.sector) == |open| && o.cnt == 1 && !o.removed
    ensures Gained(open, [o] + open, o.sector, 1)
  {
    hide Gained;
    assert Openers(open, o.sector) == 0 && !Doomed(open, o.sector);
    hide Inode, OpenIndex;
    forall t ensures Inode([o] + open, t) == if t == o.sector then Some(o) else Inode(open, t) {
      Pushed(open, o, t);
    }
    OnlyChanged(open, [o] + open, o.sector, Some(o));
  }

  lemma InodeOpenGains(fs: State, s: nat, memory: bool)
    ensures var (fs', ok) := InodeOpen(fs, s, memory);
            && (ok <==> memory || IsOpen(fs.open, s))
            && SameFiles(fs, fs')
            && (if ok then Gained(fs.open, fs'.open, s, 1) else fs' == fs)
  {
    hide Gained;
    OpenSucceeds(fs.open, s);
    if OpenIndex(fs.open, s) < |fs.open| {
      CountsUp(fs.open, s);
    } else {
      PushOpens(fs.open, Open(s, 1, false, HeaderAt(fs.disk, s)));
    }
  }

  /** The list after inode_close(). */
  lemma CloseOpens(fs: State, s: nat)
    requires OpenOk(fs.open, fs.owned) && OpenIndex(fs.open, s) < |fs.open|
    ensures var k := OpenIndex(fs.open, s);
            CloseSector(fs, s).open == if fs.open[k].cnt > 1 then fs.open[k := fs.open[k].(cnt := fs.open[k].cnt - 1)]
                                       else Without(fs.open, k)
    ensures !Doomed(fs.open, s) ==> SameFiles(fs, CloseSector(fs, s))
  {
    hide Without;
  }

  lemma CloseLoses(fs: State, s: nat)
    requires OpenOk(fs.open, fs.owned) && IsOpen(fs.open, s)
    ensures Gained(fs.open, CloseSector(fs, s).open, s, -1)
    ensures !Doomed(fs.open, s) ==> SameFiles(fs, CloseSector(fs, s))
  {
    hide CloseSector, Without, SameFiles, Gained;
    OpenPosition(fs.open, s);
    var k := OpenIndex(fs.open, s);
    CloseOpens(fs, s);
    if fs.open[k].cnt > 1 {
      var o := fs.open[k].(cnt := fs.open[k].cnt - 1);
      UpdatedAll(fs.open, k, o);
      OnlyChanged(fs.open, fs.open[k := o], s, Some(o));
    } else {
      DroppedAll(fs.open, k);
      OnlyChanged(fs.open, Without(fs.open, k), s, None);
    }
  }

  lemma DroppedAll(open: seq<Open>, k: nat)
    requires k < |open| && forall i, j :: 0 <= i < j < |open| ==> open[i].sector != open[j].sector
    ensures forall t :: Inode(Without(open, k), t) == if t == open[k].sector then None else Inode(open, t)
  {
    hide Inode, Without;
    forall t ensures Inode(Without(open, k), t) == if t == open[k].sector then None else Inode(open, t) {
      Dropped(open, k, t);
    }
  }

  /** No inode gained or lost an opener, or was removed. */
  ghost predicate Unmoved(open: seq<Open>, open': seq<Open>) {
    && (forall t :: Openers(open', t) == Openers(open, t))
    && (forall t :: Doomed(open', t) <==> Doomed(open, t))
  }

  /** A removed inode that still exists has an opener. */
  lemma DoomedOpen(open: seq<Open>, owned: map<nat, Extent>, t: nat)
    requires OpenOk(open, owned)
    ensures Doomed(open, t) ==> Openers(open, t) > 0
    ensures IsOpen(open, t) <==> Openers(open, t) > 0
    ensures t <= ROOT_DIR_SECTOR ==> !Doomed(open, t)
  {
    InodeOpenIff(open, t);
  }

  lemma GainedBack(a: seq<Open>, b: seq<Open>, c: seq<Open>, owned: map<nat, Extent>, s: nat)
    requires OpenOk(a, owned) && Gained(a, b, s, 1) && Gained(b, c, s, -1)
    ensures Unmoved(a, c)
  {
    hide Openers, Doomed, OpenOk;
    forall t ensures Openers(c, t) == Openers(a, t) && (Doomed(c, t) <==> Doomed(a, t)) {
      DoomedOpen(a, owned, t);
    }
  }

  // ---------------------------------------------------------------------
  // Each call of filesys.c
  // ---------------------------------------------------------------------

  /** dir_open_root() opens the root directory, or leaves everything as it is. */
  lemma OpenRootGains(fs: State, inodeMemory: bool, dirMemory: bool)
    requires Inv(fs)
    ensures var (fs', ok) := OpenRoot(fs, inodeMemory, dirMemory);
            && (ok <==> (inodeMemory || IsOpen(fs.open, ROOT_DIR_SECTOR)) && dirMemory)
            && Inv(fs') && SameFiles(fs, fs')
            && (if ok then Gained(fs.open, fs'.open, ROOT_DIR_SECTOR, 1) && IsOpen(fs'.open, ROOT_DIR_SECTOR)
                else Unmoved(fs.open, fs'.open))
  {
    hide DiskOk, OpenOk, DirOk, RemovedOk, CloseSector, InodeOpen, SameFiles;
    InodeOpenGains(fs, ROOT_DIR_SECTOR, inodeMemory);
    OpenRootKeepsInv(fs, inodeMemory, dirMemory);
    var (fs1, ok) := InodeOpen(fs, ROOT_DIR_SECTOR, inodeMemory);
    if ok && !dirMemory {
      RootNotRemoved(fs);
      OpenKeepsInv(fs, ROOT_DIR_SECTOR, inodeMemory);
      CloseLoses(fs1, ROOT_DIR_SECTOR);
      GainedBack(fs.open, fs1.open, CloseSector(fs1, ROOT_DIR_SECTOR).open, fs.owned, ROOT_DIR_SECTOR);
    }
  }

  /** ... and its openers are those from before when it is closed again. */
  lemma CloseRootUnmoves(fs: State, fs1: State, fs2: State)
    requires Inv(fs) && Inv(fs2) && fs2.open == fs1.open
    requires Gained(fs.open, fs1.open, ROOT_DIR_SECTOR, 1)
    ensures Unmoved(fs.open, CloseSector(fs2, ROOT_DIR_SECTOR).open)
    ensures SameFiles(fs2, CloseSector(fs2, ROOT_DIR_SECTOR))
  {
    hide CloseSector, SameFiles, OpenOk;
    DoomedOpen(fs2.open, fs2.owned, ROOT_DIR_SECTOR);
    CloseLoses(fs2, ROOT_DIR_SECTOR);
    GainedBack(fs.open, fs1.open, CloseSector(fs2, ROOT_DIR_SECTOR).open, fs.owned, ROOT_DIR_SECTOR);
  }

  lemma CreateUnmoves(fs: State, name: string, length: nat, rootMemory: bool, dirMemory: bool, env: CreateEnv)
    requires Inv(fs) && SizesOk(fs)
    ensures Unmoved(fs.open, Create(fs, name, length, rootMemory, dirMemory, env).0.open)
  {
    hide DiskOk, OpenOk, DirOk, RemovedOk, CloseSector, OpenRoot, CreateIn, Gained, Unmoved;
    OpenRootGains(fs, rootMemory, dirMemory);
    var (fs1, ok) := OpenRoot(fs, rootMemory, dirMemory);
    if ok {
      CreateKeepsInv(fs1, name, length, env);
      CloseRootUnmoves(fs, fs1, CreateIn(fs1, name, length, env).0);
    }
  }

  /** dir_remove() marks the inode while it has it open; otherwise it only looks at it. */
  lemma RemoveMarks(fs: State, s: nat)
    requires OpenIndex(fs.open, s) < |fs.open|
    ensures var open' := InodeRemove(fs, OpenIndex(fs.open, s)).open;
            forall t :: Openers(open', t) == Openers(fs.open, t) && (Doomed(open', t) <==> Doomed(fs.open, t) || t == s)
  {
    var k := OpenIndex(fs.open, s);
    var o := fs.open[k].(removed := true);
    assert o.sector == s && Inode(fs.open, s) == Some(fs.open[k]);
    UpdatedAll(fs.open, k, o);
    hide OpenIndex;
  }

  /** After filesys_remove() the inode at s, if it was open, is doomed; else it is gone. */
  ghost predicate MarkedOnly(open: seq<Open>, open': seq<Open>, s: nat) {
    && (forall t :: Openers(open', t) == Openers(open, t))
    && (forall t :: Doomed(open', t) <==> Doomed(open, t) || (t == s && Openers(open, t) > 0))
  }

  lemma MarkedBack(a: seq<Open>, b: seq<Open>, c: seq<Open>, d: seq<Open>, s: nat)
    requires Gained(a, b, s, 1) && Gained(c, d, s, -1)
    requires forall t :: Openers(c, t) == Openers(b, t) && (Doomed(c, t) <==> Doomed(b, t) || t == s)
    requires forall t :: Doomed(a, t) ==> Openers(a, t) > 0
    ensures MarkedOnly(a, d, s)
  {
    hide Openers, Doomed;
  }

  lemma RemoveAtMarks(fs: State, i: nat, memory: bool, wrote: bool)
    requires Inv(fs) && i < |fs.dir| && fs.dir[i].inUse
    ensures var (fs', ok) := RemoveAt(fs, i, memory, wrote);
            && (ok <==> (memory || IsOpen(fs.open, fs.dir[i].sector)) && wrote)
            && (if ok then MarkedOnly(fs.open, fs'.open, fs.dir[i].sector) else Unmoved(fs.open, fs'.open))
            && fs'.dir == if ok then fs.dir[i := fs.dir[i].(inUse := false)] else fs.dir
  {
    hide DiskOk, OpenOk, DirOk, RemovedOk, InodeClose, InodeOpen, Gained, MarkedOnly, Openers, Doomed;
    var s := fs.dir[i].sector;
    InodeOpenGains(fs, s, memory);
    var (fs1, ok) := InodeOpen(fs, s, memory);
    if ok {
      NamedNotRemoved(fs, i);
      OpenKeepsInv(fs, s, memory);
      OpenPosition(fs1.open, s);
      if wrote {
        EraseCloses(fs, fs1, i);
      } else {
        LookCloses(fs, fs1, s);
      }
    }
  }

  lemma LookCloses(fs: State, fs1: State, s: nat)
    requires OpenOk(fs.open, fs.owned) && OpenOk(fs1.open, fs1.owned) && IsOpen(fs1.open, s)
    requires Gained(fs.open, fs1.open, s, 1)
    ensures Unmoved(fs.open, CloseSector(fs1, s).open) && CloseSector(fs1, s).dir == fs1.dir
  {
    hide CloseSector, OpenOk, Gained, Unmoved;
    CloseLoses(fs1, s);
    GainedBack(fs.open, fs1.open, CloseSector(fs1, s).open, fs.owned, s);
    CloseSectorDir(fs1, s);
  }

  lemma CloseSectorDir(fs: State, s: nat)
    ensures CloseSector(fs, s).dir == fs.dir
  {
  }

  lemma EraseCloses(fs: State, fs1: State, i: nat)
    requires Inv(fs) && Inv(fs1) && SameFiles(fs, fs1) && i < |fs.dir| && fs.dir[i].inUse
    requires IsOpen(fs1.open, fs.dir[i].sector) && Gained(fs.open, fs1.open, fs.dir[i].sector, 1)
    ensures var s := fs.dir[i].sector;
            var fs2 := Erased(fs1, i, OpenIndex(fs1.open, s));
            && OpenIndex(fs2.open, s) == OpenIndex(fs1.open, s)
            && MarkedOnly(fs.open, CloseSector(fs2, s).open, s)
            && CloseSector(fs2, s).dir == fs.dir[i := fs.dir[i].(inUse := false)]
  {
    hide DiskOk, DirOk, RemovedOk, CloseSector, Gained, MarkedOnly;
    var s := fs.dir[i].sector;
    OpenPosition(fs1.open, s);
    var k := OpenIndex(fs1.open, s);
    var fs2 := Erased(fs1, i, k);
    RemoveKeepsInv(fs1, i, k);
    RemoveMarks(fs1.(dir := fs2.dir), s);
    assert fs2.open[k].sector == s;
    CloseLoses(fs2, s);
    forall t ensures Doomed(fs.open, t) ==> Openers(fs.open, t) > 0 { DoomedOpen(fs.open, fs.owned, t); }
    MarkedBack(fs.open, fs1.open, fs2.open, CloseSector(fs2, s).open, s);
    SameIndex(fs1.open, fs2.open, s);
    CloseSectorDir(fs2, s);
  }

  /** The directory is open around the erasure. */
  lemma MarkedInside(a: seq<Open>, b: seq<Open>, c: seq<Open>, d: seq<Open>, r: nat, s: nat)
    requires Gained(a, b, r, 1) && MarkedOnly(b, c, s) && Gained(c, d, r, -1) && s != r && !Doomed(a, r)
    ensures MarkedOnly(a, d, s)
  {
    hide Openers, Doomed;
  }

  lemma UnmovedInside(a: seq<Open>, b: seq<Open>, c: seq<Open>, d: seq<Open>, r: nat)
    requires Gained(a, b, r, 1) && Unmoved(b, c) && Gained(c, d, r, -1) && !Doomed(a, r)
    ensures Unmoved(a, d)
  {
    hide Openers, Doomed;
  }

  lemma RootStaysOpen(open: seq<Open>, open': seq<Open>)
    requires (exists s :: MarkedOnly(open, open', s)) || Unmoved(open, open')
    requires IsOpen(open, ROOT_DIR_SECTOR) && forall k :: 0 <= k < |open| ==> open[k].cnt > 0
    ensures IsOpen(open', ROOT_DIR_SECTOR)
  {
    InodeOpenIff(open, ROOT_DIR_SECTOR);
    InodeOpenIff(open', ROOT_DIR_SECTOR);
    assert Openers(open', ROOT_DIR_SECTOR) == Openers(open, ROOT_DIR_SECTOR);
  }

  /** filesys_remove() erases the entry it found exactly if it returns true, and dooms the
      inode if that is open. */
  lemma RemoveMarksFile(fs: State, name: string, rootMemory: bool, dirMemory: bool, seen: nat, memory: bool,
      wrote: bool)
    requires Inv(fs) && SizesOk(fs)
    ensures var ((fs', ok), i) :=
            (Remove(fs, name, rootMemory, dirMemory, seen, memory, wrote), Lookup(fs.dir, name, seen));
            && fs'.dir == (if ok && i.Some? then fs.dir[i.value := fs.dir[i.value].(inUse := false)] else fs.dir)
            && (if ok && i.Some? then MarkedOnly(fs.open, fs'.open, fs.dir[i.value].sector)
                else !ok && Unmoved(fs.open, fs'.open))
  {
    hide DiskOk, DirOk, RemovedOk, CloseSector, OpenRoot, RemoveAt, Gained, MarkedOnly, Openers, Doomed;
    OpenRootGains(fs, rootMemory, dirMemory);
    var (fs1, ok) := OpenRoot(fs, rootMemory, dirMemory);
    if ok {
      var i := Lookup(fs.dir, name, seen);
      DirRemoveKeepsInv(fs1, name, seen, memory, wrote);
      var fs2 := DirRemove(fs1, name, seen, memory, wrote).0;
      CloseSectorDir(fs2, ROOT_DIR_SECTOR);
      DoomedOpen(fs.open, fs.owned, ROOT_DIR_SECTOR);
      if i.Some? {
        RemoveAtMarks(fs1, i.value, memory, wrote);
        NamedNotRemoved(fs, i.value);
      }
      RootStaysOpen(fs1.open, fs2.open);
      CloseLoses(fs2, ROOT_DIR_SECTOR);
      if i.Some? && DirRemove(fs1, name, seen, memory, wrote).1 {
        MarkedInside(fs.open, fs1.open, fs2.open, CloseSector(fs2, ROOT_DIR_SECTOR).open, ROOT_DIR_SECTOR,
                     fs.dir[i.value].sector);
      } else {
        UnmovedInside(fs.open, fs1.open, fs2.open, CloseSector(fs2, ROOT_DIR_SECTOR).open, ROOT_DIR_SECTOR);
      }
    }
  }

  /** dir_lookup() opens the inode of the entry that carries the name. */
  lemma LookupOpens(fs: State, name: string, seen: nat, memory: bool)
    requires Inv(fs)
    ensures var ((fs', r), i) := (LookupOpen(fs, name, seen, memory), Lookup(fs.dir, name, seen));
            && Inv(fs') && SameFiles(fs, fs')
            && (r.Some? <==> i.Some? && (memory || IsOpen(fs.open, fs.dir[i.value].sector)))
            && (if r.Some? then i.Some? && r.value == fs.dir[i.value].sector && Gained(fs.open, fs'.open, r.value, 1)
                else Unmoved(fs.open, fs'.open))
  {
    hide DiskOk, OpenOk, DirOk, RemovedOk, InodeOpen, Gained, Openers, Doomed;
    LookupOpenKeepsInv(fs, name, seen, memory);
    var i := Lookup(fs.dir, name, seen);
    if i.Some? { InodeOpenGains(fs, fs.dir[i.value].sector, memory); }
  }

  lemma GainedInside(a: seq<Open>, b: seq<Open>, c: seq<Open>, d: seq<Open>, r: nat, s: nat)
    requires Gained(a, b, r, 1) && Gained(b, c, s, 1) && Gained(c, d, r, -1) && s != r && !Doomed(a, r)
    ensures Gained(a, d, s, 1)
  {
    hide Openers, Doomed;
  }

  /** An inode with an opener stays open while it gains one. */
  lemma GainedOpen(open: seq<Open>, open': seq<Open>, s: nat, t: nat)
    requires Gained(open, open', s, 1) || Unmoved(open, open')
    requires t == s || IsOpen(open, t)
    requires (forall k :: 0 <= k < |open| ==> open[k].cnt > 0) && (t == s ==> Gained(open, open', s, 1))
    ensures IsOpen(open', t)
  {
    InodeOpenIff(open, t);
    InodeOpenIff(open', t);
    assert Openers(open', t) > 0;
  }

  /** What filesys_open() does with the root directory open; then it closes the directory. */
  lemma OpenInGains(fs: State, fs1: State, name: string, seen: nat, memory: bool)
    requires Inv(fs) && Inv(fs1) && SameFiles(fs, fs1)
    requires Gained(fs.open, fs1.open, ROOT_DIR_SECTOR, 1) && IsOpen(fs1.open, ROOT_DIR_SECTOR)
    ensures var ((fs2, r), i) := (LookupOpen(fs1, name, seen, memory), Lookup(fs.dir, name, seen));
            var fs3 := CloseSector(fs2, ROOT_DIR_SECTOR);
            && Inv(fs3) && SameFiles(fs, fs3)
            && (r.Some? <==> i.Some? && (memory || IsOpen(fs1.open, fs.dir[i.value].sector)))
            && (if r.Some? then i.Some? && r.value == fs.dir[i.value].sector && Gained(fs.open, fs3.open, r.value, 1)
                else Unmoved(fs.open, fs3.open))
  {
    hide DiskOk, DirOk, RemovedOk, CloseSector, LookupOpen, Gained, Unmoved, Doomed;
    LookupOpens(fs1, name, seen, memory);
    var (fs2, r) := LookupOpen(fs1, name, seen, memory);
    var s := if r.Some? then r.value else ROOT_DIR_SECTOR + 1;
    DoomedOpen(fs.open, fs.owned, ROOT_DIR_SECTOR);
    DoomedOpen(fs2.open, fs2.owned, ROOT_DIR_SECTOR);
    GainedOpen(fs1.open, fs2.open, s, ROOT_DIR_SECTOR);
    CloseSectorKeepsInv(fs2, ROOT_DIR_SECTOR);
    CloseLoses(fs2, ROOT_DIR_SECTOR);
    if r.Some? {
      NamedNotRemoved(fs, Lookup(fs.dir, name, seen).value);
      GainedInside(fs.open, fs1.open, fs2.open, CloseSector(fs2, ROOT_DIR_SECTOR).open, ROOT_DIR_SECTOR, s);
    } else {
      UnmovedInside(fs.open, fs1.open, fs2.open, CloseSector(fs2, ROOT_DIR_SECTOR).open, ROOT_DIR_SECTOR);
    }
  }

  /** filesys_open() opens the file that the entry found names, gives it one more opener, and
      changes nothing else; it fails exactly if a guard fails, and then nothing is left open. */
  lemma OpenGains(fs: State, name: string, rootMemory: bool, dirMemory: bool, seen: nat, memory: bool, fileMemory: bool)
    requires Inv(fs)
    ensures var ((fs', r), i) :=
            (OpenFile(fs, name, rootMemory, dirMemory, seen, memory, fileMemory), Lookup(fs.dir, name, seen));
            && SameFiles(fs, fs')
            && (r.Some? <==> (rootMemory || IsOpen(fs.open, ROOT_DIR_SECTOR)) && dirMemory && i.Some?
                             && (memory || IsOpen(fs.open, fs.dir[i.value].sector)) && fileMemory)
            && (if r.Some? then i.Some? && r.value == fs.dir[i.value].sector && Gained(fs.open, fs'.open, r.value, 1)
                else Unmoved(fs.open, fs'.open))
  {
    hide DiskOk, DirOk, RemovedOk, CloseSector, LookupOpen, OpenRoot, Gained, Unmoved, Doomed;
    OpenRootGains(fs, rootMemory, dirMemory);
    var (fs1, ok) := OpenRoot(fs, rootMemory, dirMemory);
    if ok {
      var i := Lookup(fs.dir, name, seen);
      OpenInGains(fs, fs1, name, seen, memory);
      if i.Some? {
        NamedNotRemoved(fs, i.value);
        OpenRootOpens(fs, rootMemory, dirMemory, fs.dir[i.value].sector);
      }
      var (fs2, r) := LookupOpen(fs1, name, seen, memory);
      var fs3 := CloseSector(fs2, ROOT_DIR_SECTOR);
      if r.Some? && !fileMemory {
        NamedNotDoomed(fs3, i.value);
        GainedSelf(fs.open, fs3.open, r.value);
        CloseLoses(fs3, r.value);
        GainedBack(fs.open, fs3.open, CloseSector(fs3, r.value).open, fs.owned, r.value);
      }
    }
  }

  lemma NamedNotDoomed(fs: State, i: nat)
    requires Inv(fs) && i < |fs.dir| && fs.dir[i].inUse
    ensures !Doomed(fs.open, fs.dir[i].sector)
  {
    hide DiskOk, OpenOk, DirOk, RemovedOk;
    NamedNotRemoved(fs, i);
  }

  lemma GainedSelf(open: seq<Open>, open': seq<Open>, s: nat)
    requires Gained(open, open', s, 1)
    ensures IsOpen(open', s) && (Doomed(open', s) <==> Doomed(open, s))
  {
    InodeOpenIff(open', s);
    assert Openers(open', s) > 0;
  }

  /** So with complete reads filesys_open() opens a file exactly if the name is bound to it
      and memory suffices. */
  lemma OpenFileBinds(fs: State, name: string, rootMemory: bool, dirMemory: bool, seen: nat, memory: bool,
      fileMemory: bool, s: nat)
    requires Inv(fs) && NamesUnique(fs.dir) && seen >= |fs.dir|
    ensures OpenFile(fs, name, rootMemory, dirMemory, seen, memory, fileMemory).1 == Some(s) <==>
              && Binds(fs.dir, name, s) && (rootMemory || IsOpen(fs.open, ROOT_DIR_SECTOR)) && dirMemory
              && (memory || IsOpen(fs.open, s)) && fileMemory
  {
    hide DiskOk, DirOk, RemovedOk, OpenOk, Gained, Unmoved, OpenFile, SameFiles;
    OpenGains(fs, name, rootMemory, dirMemory, seen, memory, fileMemory);
    LookupBinds(fs.dir, name, seen, s);
  }

  // ---------------------------------------------------------------------
  // The ledger of a run
  // ---------------------------------------------------------------------

  /** The handles handed out and not yet closed, by sector, and the files removed since
      while open. */
  datatype Ledger = Ledger(handles: multiset<nat>, removed: set<nat>)

  /** The sector whose file this call opened, or removed. */
  ghost function OpenedBy(fs: State, c: Call): Option<nat> {
    match c
    case OpenCall(name, rootMemory, dirMemory, seen, memory, fileMemory) =>
      OpenFile(fs, name, rootMemory, dirMemory, seen, memory, fileMemory).1
    case ReopenCall(s) => Some(s)
    case _ => None
  }

  ghost function RemovedBy(fs: State, c: Call): Option<nat> {
    match c
    case RemoveCall(name, rootMemory, dirMemory, seen, memory, wrote) =>
      if Remove(fs, name, rootMemory, dirMemory, seen, memory, wrote).1 then Found(fs, name, seen) else None
    case _ => None
  }

  /** The entry of a name that a search finds. */
  function Found(fs: State, name: string, seen: nat): Option<nat> {
    var i := Lookup(fs.dir, name, seen);
    if i.Some? then Some(fs.dir[i.value].sector) else None
  }

  ghost function Entered(l: Ledger, fs: State, c: Call): Ledger {
    if OpenedBy(fs, c).Some? then l.(handles := l.handles + multiset{OpenedBy(fs, c).value})
    else if c.CloseCall? then
      Ledger(l.handles - multiset{c.s}, if l.handles[c.s] <= 1 then l.removed - {c.s} else l.removed)
    else if RemovedBy(fs, c).Some? && l.handles[RemovedBy(fs, c).value] > 0 then
      l.(removed := l.removed + {RemovedBy(fs, c).value})
    else l
  }

  ghost predicate Agrees(fs: State, l: Ledger) {
    && (forall s :: Openers(fs.open, s) == l.handles[s])
    && (forall s :: Doomed(fs.open, s) <==> s in l.removed)
  }

  lemma OpenCallAgrees(fs: State, c: Call, l: Ledger)
    requires Inv(fs) && Agrees(fs, l) && c.OpenCall?
    ensures Agrees(Step(fs, c), Entered(l, fs, c))
  {
    hide DiskOk, DirOk, RemovedOk, OpenOk, OpenFile, SameFiles, Openers, Doomed;
    forall s ensures Doomed(fs.open, s) ==> Openers(fs.open, s) > 0 { DoomedOpen(fs.open, fs.owned, s); }
    OpenGains(fs, c.name, c.rootMemory, c.dirMemory, c.seen, c.memory, c.fileMemory);
  }

  lemma RemoveCallAgrees(fs: State, c: Call, l: Ledger)
    requires Inv(fs) && SizesOk(fs) && Agrees(fs, l) && c.RemoveCall?
    ensures Agrees(Step(fs, c), Entered(l, fs, c))
  {
    hide DiskOk, DirOk, RemovedOk, OpenOk, Remove, SameFiles, Openers, Doomed;
    RemoveMarksFile(fs, c.name, c.rootMemory, c.dirMemory, c.seen, c.memory, c.wrote);
  }

  lemma CloseCallAgrees(fs: State, c: Call, l: Ledger)
    requires Inv(fs) && Agrees(fs, l) && c.CloseCall? && IsOpen(fs.open, c.s)
    ensures Agrees(Step(fs, c), Entered(l, fs, c))
  {
    hide DiskOk, DirOk, RemovedOk, OpenOk, CloseSector, SameFiles, Openers, Doomed;
    DoomedOpen(fs.open, fs.owned, c.s);
    CloseLoses(fs, c.s);
  }

  lemma ReopenCallAgrees(fs: State, c: Call, l: Ledger)
    requires Inv(fs) && Agrees(fs, l) && c.ReopenCall? && IsOpen(fs.open, c.s)
    ensures Agrees(Step(fs, c), Entered(l, fs, c))
  {
    hide DiskOk, DirOk, RemovedOk, Openers, Doomed, OpenIndex;
    forall s ensures Doomed(fs.open, s) ==> Openers(fs.open, s) > 0 { DoomedOpen(fs.open, fs.owned, s); }
    OpenPosition(fs.open, c.s);
    CountsUp(fs.open, c.s);
  }

  lemma StepAgrees(fs: State, c: Call, l: Ledger)
    requires Inv(fs) && SizesOk(fs) && Legal(fs, c) && Agrees(fs, l)
    ensures Agrees(Step(fs, c), Entered(l, fs, c))
  {
    hide DiskOk, DirOk, RemovedOk, OpenOk, Openers, Doomed, Create, OpenFile, Remove, CloseSector, Reopen;
    match c
    case CreateCall(name, length, rootMemory, dirMemory, env) =>
      CreateUnmoves(fs, name, length, rootMemory, dirMemory, env);
    case OpenCall(_, _, _, _, _, _) => OpenCallAgrees(fs, c, l);
    case RemoveCall(_, _, _, _, _, _) => RemoveCallAgrees(fs, c, l);
    case ReopenCall(_) => ReopenCallAgrees(fs, c, l);
    case CloseCall(_) => CloseCallAgrees(fs, c, l);
  }

  ghost function EnteredAll(l: Ledger, fs: State, run: seq<Call>): Ledger
    decreases |run|
  {
    if run == [] then l else EnteredAll(Entered(l, fs, run[0]), Step(fs, run[0]), run[1..])
  }

  lemma {:induction false} RunAgrees(fs: State, run: seq<Call>, l: Ledger)
    requires Inv(fs) && SizesOk(fs) && LegalRun(fs, run) && Agrees(fs, l)
    ensures Agrees(After(fs, run), EnteredAll(l, fs, run))
    decreases |run|
  {
    hide Inv, SizesOk, Legal, Step, Entered, Agrees;
    if run != [] {
      StepKeepsInv(fs, run[0]);
      StepAgrees(fs, run[0], l);
      RunAgrees(Step(fs, run[0]), run[1..], Entered(l, fs, run[0]));
    }
  }

  lemma CreateOpens(fs: State, s: nat, length: nat, memory: bool, written: bool)
    requires s < |fs.disk|
    ensures InodeCreate(fs, s, length, memory, written).0.open == fs.open
    ensures |InodeCreate(fs, s, length, memory, written).0.disk| == |fs.disk|
  {
    hide Allocate;
  }

  /** do_format() and free_map_open() leave the free map's inode open, once. */
  lemma FormatOpens(disk: seq<Block>)
    requires Format(disk).Some?
    ensures exists e :: Format(disk).value.open == [Open(FREE_MAP_SECTOR, 1, false, e)]
  {
    hide InodeCreate;
    var fs1 := InodeCreate(Blank(disk), FREE_MAP_SECTOR, 4 * ElemCnt(|disk|), true, true).0;
    CreateOpens(Blank(disk), FREE_MAP_SECTOR, 4 * ElemCnt(|disk|), true, true);
    CreateOpens(fs1, ROOT_DIR_SECTOR, 16 * 20, true, true);
    var fs2 := InodeCreate(fs1, ROOT_DIR_SECTOR, 16 * 20, true, true).0;
    assert Format(disk).value.open == [Open(FREE_MAP_SECTOR, 1, false, HeaderAt(fs2.disk, FREE_MAP_SECTOR))];
  }

  lemma FormatAgrees(disk: seq<Block>)
    requires Format(disk).Some?
    ensures Agrees(Format(disk).value, Ledger(multiset{FREE_MAP_SECTOR}, {}))
  {
    hide Format;
    FormatOpens(disk);
    var e :| Format(disk).value.open == [Open(FREE_MAP_SECTOR, 1, false, e)];
    OneOpen(Open(FREE_MAP_SECTOR, 1, false, e));
  }

  lemma OneOpen(o: Open)
    ensures forall s :: Openers([o], s) == (if s == o.sector then o.cnt else 0)
    ensures forall s :: Doomed([o], s) <==> s == o.sector && o.removed
  {
  }

  /** In any run from a formatted disk each inode has as many openers as there are handles to
      it, which were handed out by filesys_open() and inode_reopen() and not given back; it is
      open exactly while that number is positive.  The file system itself keeps the free map
      open, once, and opens the root directory only during a call. */
  lemma OpenersCounted(disk: seq<Block>, run: seq<Call>, s: nat)
    requires Format(disk).Some? && LegalRun(Format(disk).value, run)
    ensures var (fs, l) := (After(Format(disk).value, run),
                            EnteredAll(Ledger(multiset{FREE_MAP_SECTOR}, {}), Format(disk).value, run));
            && Openers(fs.open, s) == l.handles[s]
            && (IsOpen(fs.open, s) <==> l.handles[s] > 0)
            && (Doomed(fs.open, s) <==> s in l.removed)
  {
    hide DiskOk, DirOk, RemovedOk, Format, Openers, Doomed;
    FormatInv(disk);
    FormatAgrees(disk);
    RunAgrees(Format(disk).value, run, Ledger(multiset{FREE_MAP_SECTOR}, {}));
    RunKeepsInv(Format(disk).value, run);
    DoomedOpen(After(Format(disk).value, run).open, After(Format(disk).value, run).owned, s);
  }

  lemma LastCloseByCount(fs: State, s: nat)
    requires IsOpen(fs.open, s)
    ensures LastClose(fs, OpenIndex(fs.open, s)) <==> Openers(fs.open, s) == 1 && Doomed(fs.open, s)
  {
    OpenPosition(fs.open, s);
  }

  lemma ReleasedByLedger(fs: State, c: Call, l: Ledger, s: nat)
    requires Inv(fs) && SizesOk(fs) && Legal(fs, c) && Agrees(fs, l) && s in fs.owned
    ensures s !in Step(fs, c).owned <==>
            || (c == CloseCall(s) && l.handles[s] == 1 && s in l.removed)
            || (RemovedBy(fs, c) == Some(s) && l.handles[s] == 0)
  {
    hide DiskOk, DirOk, RemovedOk, Step, Openers, Doomed, Remove;
    ReleasedExactly(fs, c, s);
    DoomedOpen(fs.open, fs.owned, s);
    if c == CloseCall(s) { LastCloseByCount(fs, s); }
    if c.RemoveCall? { RemoveSucceeds(fs, c.name, c.rootMemory, c.dirMemory, c.seen, c.memory, c.wrote); }
  }

  /** In any run from a formatted disk an inode ceases to exist exactly when its last handle
      is closed and it was removed before, or when it is removed and there is no handle. */
  lemma ReleasedByHistory(disk: seq<Block>, run: seq<Call>, c: Call, s: nat)
    requires Format(disk).Some? && LegalRun(Format(disk).value, run) && Legal(After(Format(disk).value, run), c)
    requires s in After(Format(disk).value, run).owned
    ensures var (fs, l) := (After(Format(disk).value, run),
                            EnteredAll(Ledger(multiset{FREE_MAP_SECTOR}, {}), Format(disk).value, run));
            s !in Step(fs, c).owned <==>
              || (c == CloseCall(s) && l.handles[s] == 1 && s in l.removed)
              || (RemovedBy(fs, c) == Some(s) && l.handles[s] == 0)
  {
    hide Inv, SizesOk, Format, Agrees, Step, Legal, RemovedBy;
    FormatInv(disk);
    FormatAgrees(disk);
    RunAgrees(Format(disk).value, run, Ledger(multiset{FREE_MAP_SECTOR}, {}));
    RunKeepsInv(Format(disk).value, run);
    RunKeepsSizes(Format(disk).value, run);
    ReleasedByLedger(After(Format(disk).value, run), c,
                     EnteredAll(Ledger(multiset{FREE_MAP_SECTOR}, {}), Format(disk).value, run), s);
  }

  lemma {:induction false} RunKeepsSizes(fs: State, run: seq<Call>)
    requires Inv(fs) && SizesOk(fs) && LegalRun(fs, run)
    ensures SizesOk(After(fs, run))
    decreases |run|
  {
    hide Inv, Legal, Step;
    if run != [] {
      StepKeepsInv(fs, run[0]);
      RunKeepsSizes(Step(fs, run[0]), run[1..]);
    }
  }

  // ---------------------------------------------------------------------
  // What filesys_create() and do_format() answer
  // ---------------------------------------------------------------------

  /** The sector that a new inode's header gets: the first that is free. */
  ghost function HeaderPlace(used: seq<bool>): Option<nat> {
    FirstGroup(used, 0, 1, false)
  }

  /** ... and where its data goes then: the first free group that is large enough. */
  ghost function DataPlace(used: seq<bool>, length: nat): Option<nat> {
    if HeaderPlace(used) == None || HeaderPlace(used).value >= |used| then None
    else FirstGroup(SetBits(used, HeaderPlace(used).value, 1, true), 0, Sectors(length), false)
  }

  /** Block x of the disk after a file is created at s, its data at e. */
  function BlockAfter(disk: seq<Block>, s: nat, e: Extent, x: nat): Block
    requires x < |disk|
  {
    if InExtent(x, e) then Data else if x == s then Header(e) else disk[x]
  }

  /** From fs to fs' an inode of this length, zeroed, came to exist where there was room for
      it first, and got a name in that slot. */
  ghost predicate Created(fs: State, fs': State, name: string, length: nat, slot: nat) {
    && HeaderPlace(fs.used).Some? && DataPlace(fs.used, length).Some? && slot < |fs.dir|
    && var s, e := HeaderPlace(fs.used).value, Extent(DataPlace(fs.used, length).value, length);
       && fs'.owned == fs.owned[s := e] && fs'.dir == fs.dir[slot := Entry(true, s, name)]
       && |fs'.used| == |fs.used| && |fs'.disk| == |fs.disk|
       && (forall x: nat :: x < |fs.used| ==> fs'.used[x] == (fs.used[x] || Occupies(x, s, e)))
       && (forall x: nat :: x < |fs.disk| ==> fs'.disk[x] == BlockAfter(fs.disk, s, e, x))
  }

  lemma PlacesFit(used: seq<bool>, length: nat)
    ensures HeaderPlace(used).Some? ==> HeaderPlace(used).value + 1 <= |used|
    ensures DataPlace(used, length).Some? ==> DataPlace(used, length).value + Sectors(length) <= |used|
  {
    hide FirstGroup, SetBits, AllBits;
    FirstGroupIsLeast(used, 0, 1, false);
    if HeaderPlace(used).Some? {
      FirstGroupIsLeast(SetBits(used, HeaderPlace(used).value, 1, true), 0, Sectors(length), false);
    }
  }

  /** dir_add() succeeds: the name is valid and new to the search, and there is a free slot. */
  predicate CanAdd(dir: seq<Entry>, name: string, env: CreateEnv) {
    ValidName(name) && Lookup(dir, name, env.seen) == None && FreeSlot(dir, env.seenFree) < |dir| && env.wrote
  }

  /** With the root directory open. */
  lemma CreateInSucceeds(fs: State, name: string, length: nat, env: CreateEnv)
    requires SizesOk(fs)
    ensures var (fs', ok) := CreateIn(fs, name, length, env);
            && (ok <==> env.map1 && env.memory && env.map2 && DataPlace(fs.used, length).Some?
                        && CanAdd(fs.dir, name, env))
            && (if ok then Created(fs, fs', name, length, FreeSlot(fs.dir, env.seenFree)) else fs'.dir == fs.dir)
  {
    hide FirstGroup, Lookup, FreeSlot;
    PlacesFit(fs.used, length);
  }

  /** filesys_create() succeeds exactly if no guard fails, and then a zeroed file of that
      length exists under that name, in sectors that were free; when it fails the directory
      is as it was. */
  lemma CreateSucceeds(fs: State, name: string, length: nat, rootMemory: bool, dirMemory: bool, env: CreateEnv)
    requires Inv(fs) && SizesOk(fs)
    ensures var (fs', ok) := Create(fs, name, length, rootMemory, dirMemory, env);
            && (ok <==> (rootMemory || IsOpen(fs.open, ROOT_DIR_SECTOR)) && dirMemory
                        && env.map1 && env.memory && env.map2 && DataPlace(fs.used, length).Some?
                        && CanAdd(fs.dir, name, env))
            && (if ok then Created(fs, fs', name, length, FreeSlot(fs.dir, env.seenFree)) else fs'.dir == fs.dir)
  {
    hide DiskOk, OpenOk, DirOk, RemovedOk, CloseSector, OpenRoot, CreateIn, DataPlace, HeaderPlace, Gained, Unmoved;
    hide CanAdd;
    hide BlockAfter, Occupies;
    OpenRootGains(fs, rootMemory, dirMemory);
    var (fs1, ok) := OpenRoot(fs, rootMemory, dirMemory);
    if ok {
      CreateKeepsInv(fs1, name, length, env);
      CreateInSucceeds(fs1, name, length, env);
      CloseRootUnmoves(fs, fs1, CreateIn(fs1, name, length, env).0);
    }
  }

  /** The first free group of a device on which only the first m sectors are in use. */
  lemma FirstFree(used: seq<bool>, start: nat, m: nat, cnt: nat)
    requires start <= m <= |used| && cnt > 0
    requires forall i :: 0 <= i < |used| ==> used[i] == (i < m)
    ensures FirstGroup(used, start, cnt, false) == if m + cnt <= |used| then Some(m) else None
    decreases m - start
  {
    if start < m && start + cnt <= |used| {
      assert !AllBits(used, start, cnt, false) by { assert used[start]; }
      FirstFree(used, start + 1, m, cnt);
    }
  }

  /** do_format() succeeds exactly on a device with room for the two marked sectors, the free
      map file and the one sector of the root directory, which it puts next to each other. */
  lemma FormatSucceeds(disk: seq<Block>)
    ensures var n := Sectors(4 * ElemCnt(|disk|));
            && (Format(disk).Some? <==> |disk| >= 2 + n + 1)
            && (Format(disk).Some? ==>
                  Format(disk).value.owned
                  == map[FREE_MAP_SECTOR := Extent(2, 4 * ElemCnt(|disk|)), ROOT_DIR_SECTOR := Extent(2 + n, 320)]
                  && |Format(disk).value.dir| == 16 && forall i :: 0 <= i < 16 ==> !Format(disk).value.dir[i].inUse)
  {
    hide FirstGroup, ElemCnt;
    var n := Sectors(4 * ElemCnt(|disk|));
    if |disk| >= 2 {
      var fs := Blank(disk);
      assert ElemCnt(|disk|) > 0 by { SomeElement(|disk|); }
      FirstFree(fs.used, 0, 2, n);
      if 2 + n <= |disk| {
        FirstFree(SetBits(fs.used, 2, n, true), 0, 2 + n, 1);
      }
    }
  }

  lemma SomeElement(n: nat)
    requires n > 0
    ensures ElemCnt(n) > 0
  {
  }
}

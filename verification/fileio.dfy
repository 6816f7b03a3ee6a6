/**
 inode_read_at() and inode_write_at() of filesys/inode.c: loops over the sectors of
 an extent, proved against the flat sequence of bytes they stand for.
 */
module FileIO {
  import opened Common
  import opened FileSystems

  /** The device bytes that hold the data of an inode. */
  ghost function Content(data: seq<byte>, e: Extent): (c: seq<byte>)
    requires SECTOR_SIZE * e.start + e.length <= |data|
  {
    data[SECTOR_SIZE * e.start..SECTOR_SIZE * e.start + e.length]
  }

  /** data with s written over position p. */
  function Replace(data: seq<byte>, p: nat, s: seq<byte>): (r: seq<byte>)
    requires p + |s| <= |data|
    ensures |r| == |data|
  {
    data[..p] + s + data[p + |s|..]
  }

  /** How much of a request lies inside the file. */
  function Clip(size: int, offset: nat, length: nat): (n: nat) {
    var m := Min(size, length - offset);
    if m < 0 then 0 else m
  }

  /** How much is transferred: without memory for the bounce buffer the loop stops at
      the first chunk that is not a whole sector. */
  function Transferred(size: int, offset: nat, length: nat, memory: bool): (n: nat) {
    var n := Clip(size, offset, length);
    if memory then n
    else if offset % SECTOR_SIZE != 0 then 0
    else n / SECTOR_SIZE * SECTOR_SIZE
  }

  /** The chunk the loop transfers next. */
  function Chunk(size: int, offset: nat, length: nat): int {
    Min(size, Min(length - offset, SECTOR_SIZE - offset % SECTOR_SIZE))
  }

  /** byte_to_sector() leads to the sector and the position in it of a file byte. */
  lemma ByteToSector(start: nat, offset: nat)
    ensures SECTOR_SIZE * (start + offset / SECTOR_SIZE) + offset % SECTOR_SIZE == SECTOR_SIZE * start + offset
  {
  }

  /** One step of the loop. */
  lemma NextChunk(size: int, offset: nat, length: nat, memory: bool)
    requires Chunk(size, offset, length) > 0
    requires memory || (offset % SECTOR_SIZE == 0 && Chunk(size, offset, length) == SECTOR_SIZE)
    ensures var c := Chunk(size, offset, length);
            Transferred(size, offset, length, memory) == c + Transferred(size - c, offset + c, length, memory)
  {
    var c := Chunk(size, offset, length);
    assert Clip(size, offset, length) == c + Clip(size - c, offset + c, length);
    if !memory {
      var n := Clip(size, offset, length);
      assert (offset + SECTOR_SIZE) % SECTOR_SIZE == 0;
      assert (n - SECTOR_SIZE) / SECTOR_SIZE == n / SECTOR_SIZE - 1;
    }
  }

  /** The loop stops where Transferred says. */
  lemma LastChunk(size: int, offset: nat, length: nat, memory: bool)
    requires Chunk(size, offset, length) <= 0
          || (!memory && (offset % SECTOR_SIZE != 0 || Chunk(size, offset, length) != SECTOR_SIZE))
    ensures Transferred(size, offset, length, memory) == 0
  {
  }

  class Device {
    var data: seq<byte>

    constructor (d: seq<byte>)
      ensures data == d
    {
      data := d;
    }

    /** block_read() into buffer + at */
    method BlockRead(sector: nat, buffer: array<byte>, at: nat)
      requires SECTOR_SIZE * sector + SECTOR_SIZE <= |data| && at + SECTOR_SIZE <= buffer.Length
      modifies buffer
      ensures buffer[..] == Replace(old(buffer[..]), at, data[SECTOR_SIZE * sector..SECTOR_SIZE * sector + SECTOR_SIZE])
    {
      ghost var before := buffer[..];
      forall i | 0 <= i < SECTOR_SIZE {
        buffer[at + i] := data[SECTOR_SIZE * sector + i];
      }
    }

    /** block_write() */
    method BlockWrite(sector: nat, bytes: seq<byte>)
      requires SECTOR_SIZE * sector + SECTOR_SIZE <= |data| && |bytes| == SECTOR_SIZE
      modifies this
      ensures data == Replace(old(data), SECTOR_SIZE * sector, bytes)
    {
      data := Replace(data, SECTOR_SIZE * sector, bytes);
    }

    ghost predicate Holds(e: Extent)
      reads this
    {
      SECTOR_SIZE * (e.start + Sectors(e.length)) <= |data|
    }
  }

  /** memcpy (to + at, from + start, n) */
  method Copy(to: array<byte>, at: nat, from: array<byte>, start: nat, n: nat)
    requires to != from && at + n <= to.Length && start + n <= from.Length
    modifies to
    ensures to[..] == Replace(old(to[..]), at, from[start..start + n])
  {
    forall i | 0 <= i < n {
      to[at + i] := from[start + i];
    }
  }

  lemma SectorInside(e: Extent, offset: nat)
    requires offset < e.length
    ensures offset / SECTOR_SIZE < Sectors(e.length)
  {
  }

  /** n bytes of the device from position p have arrived in the buffer. */
  ghost predicate Arrived(buffer: seq<byte>, was: seq<byte>, data: seq<byte>, p: nat, n: nat) {
    && |buffer| == |was| && n <= |was| && (n > 0 ==> p + n <= |data|)
    && forall i :: 0 <= i < |was| ==> buffer[i] == if i < n then data[p + i] else was[i]
  }

  /** The next chunk arrives. */
  lemma ArrivesOn(buffer: seq<byte>, buffer': seq<byte>, was: seq<byte>, data: seq<byte>, p: nat, n: nat, c: nat)
    requires Arrived(buffer, was, data, p, n) && n + c <= |was| && p + n + c <= |data|
    requires buffer' == Replace(buffer, n, data[p + n..p + n + c])
    ensures Arrived(buffer', was, data, p, n + c)
  {
  }

  lemma ArrivedNothing(was: seq<byte>, data: seq<byte>, p: nat)
    ensures Arrived(was, was, data, p, 0)
  {
  }

  /** n bytes of a file from an offset on; no offset is too large for none. */
  function Part(c: seq<byte>, offset: nat, n: nat): (r: seq<byte>)
    requires n == 0 || offset + n <= |c|
    ensures |r| == n
  {
    if n == 0 then [] else c[offset..offset + n]
  }

  /** In terms of the file: its bytes have replaced the first ones of the buffer. */
  lemma ArrivedContent(buffer: seq<byte>, was: seq<byte>, data: seq<byte>, e: Extent, offset: nat, n: nat)
    requires SECTOR_SIZE * e.start + e.length <= |data| && (n == 0 || offset + n <= e.length)
    requires Arrived(buffer, was, data, SECTOR_SIZE * e.start + offset, n)
    ensures n <= |was| && buffer == Part(Content(data, e), offset, n) + was[n..]
  {
    var r := Part(Content(data, e), offset, n) + was[n..];
    assert |r| == |buffer|;
    forall i | 0 <= i < |r| ensures r[i] == buffer[i] {
      if i < n {
        assert r[i] == Content(data, e)[offset + i] == data[SECTOR_SIZE * e.start + offset + i];
      }
    }
  }

  lemma SliceOf(b: seq<byte>, data: seq<byte>, q: nat, ofs: nat, n: nat)
    requires q + SECTOR_SIZE <= |data| && b == data[q..q + SECTOR_SIZE] && ofs + n <= SECTOR_SIZE
    ensures b[ofs..ofs + n] == data[q + ofs..q + ofs + n]
  {
    var x, y := b[ofs..ofs + n], data[q + ofs..q + ofs + n];
    forall i | 0 <= i < n ensures x[i] == y[i] {
      assert b[ofs + i] == data[q + ofs + i];
    }
  }

  lemma ReplaceAll(b: seq<byte>, s: seq<byte>)
    requires |s| == |b|
    ensures Replace(b, 0, s) == s
  {
  }

  /** A chunk that is not a whole sector, through the bounce buffer. */
  method ReadPart(device: Device, sector: nat, ofs: nat, chunk: nat, buffer: array<byte>, at: nat, bounce: array<byte>)
    requires SECTOR_SIZE * sector + SECTOR_SIZE <= |device.data| && ofs + chunk <= SECTOR_SIZE == bounce.Length
    requires at + chunk <= buffer.Length && bounce != buffer
    modifies buffer, bounce
    ensures buffer[..] == Replace(old(buffer[..]), at,
            device.data[SECTOR_SIZE * sector + ofs..SECTOR_SIZE * sector + ofs + chunk])
  {
    hide Replace;
    ghost var data := device.data;
    ReplaceAll(bounce[..], data[SECTOR_SIZE * sector..SECTOR_SIZE * sector + SECTOR_SIZE]);
    device.BlockRead(sector, bounce, 0);
    assert bounce[..] == data[SECTOR_SIZE * sector..SECTOR_SIZE * sector + SECTOR_SIZE];
    SliceOf(bounce[..], data, SECTOR_SIZE * sector, ofs, chunk);
    assert bounce[ofs..ofs + chunk] == bounce[..][ofs..ofs + chunk];
    Copy(buffer, at, bounce, ofs, chunk);
  }

  /** The sector and the bytes of a chunk of the file. */
  lemma ChunkPlace(e: Extent, left: int, pos: nat)
    requires 0 < Chunk(left, pos, e.length)
    ensures var (c, s) := (Chunk(left, pos, e.length), e.start + pos / SECTOR_SIZE);
            && SECTOR_SIZE * s + pos % SECTOR_SIZE == SECTOR_SIZE * e.start + pos
            && s < e.start + Sectors(e.length) && pos % SECTOR_SIZE + c <= SECTOR_SIZE && pos + c <= e.length
            && c <= left && s >= 0
  {
    ByteToSector(e.start, pos);
    SectorInside(e, pos);
  }

  /** The body of the loop of inode_read_at(): one chunk, directly or by way of the
      bounce buffer. */
  method ReadChunk(device: Device, e: Extent, ghost left: int, pos: nat, chunk: nat,
                   buffer: array<byte>, at: nat, bounce: array?<byte>)
    requires device.Holds(e) && 0 < chunk == Chunk(left, pos, e.length) && at + chunk <= buffer.Length
    requires bounce != buffer && (bounce != null ==> bounce.Length == SECTOR_SIZE)
    requires bounce == null ==> pos % SECTOR_SIZE == 0 && chunk == SECTOR_SIZE
    modifies buffer, if bounce == null then {} else {bounce}
    ensures var p := SECTOR_SIZE * e.start + pos;
            p + chunk <= |device.data| && buffer[..] == Replace(old(buffer[..]), at, device.data[p..p + chunk])
    ensures pos + chunk <= e.length && chunk <= left
  {
    var sector, sectorOfs := e.start + pos / SECTOR_SIZE, pos % SECTOR_SIZE;
    ChunkPlace(e, left, pos);
    if sectorOfs == 0 && chunk == SECTOR_SIZE {
      device.BlockRead(sector, buffer, at);
    } else {
      ReadPart(device, sector, sectorOfs, chunk, buffer, at, bounce);
    }
  }

  lemma HoldsContent(device: Device, e: Extent)
    requires device.Holds(e)
    ensures SECTOR_SIZE * e.start + e.length <= |device.data|
  {
  }

  /** inode_read_at(): the buffer receives exactly the bytes of the file from offset
      on, clipped to the file's length, and keeps the rest of its own. */
  method ReadAt(device: Device, e: Extent, buffer: array<byte>, size: int, offset: nat, memory: bool)
    returns (bytesRead: nat)
    requires device.Holds(e) && size <= buffer.Length
    modifies buffer
    ensures bytesRead == Transferred(size, offset, e.length, memory) && bytesRead <= buffer.Length
    ensures Arrived(buffer[..], old(buffer[..]), device.data, SECTOR_SIZE * e.start + offset, bytesRead)
    ensures SECTOR_SIZE * e.start + e.length <= |device.data| && (bytesRead > 0 ==> offset + bytesRead <= e.length)
    ensures buffer[..] == Part(Content(device.data, e), offset, bytesRead) + old(buffer[..])[bytesRead..]
  {
    hide Arrived, Transferred, Replace, Content, Part;
    HoldsContent(device, e);
    bytesRead := 0;
    var left, pos := size, offset;
    var bounce: array?<byte> := null;
    ghost var base, data, was := SECTOR_SIZE * e.start + offset, device.data, buffer[..];
    ArrivedNothing(was, data, base);
    while left > 0
      invariant left == size - bytesRead && pos == offset + bytesRead
      invariant bytesRead > 0 ==> bytesRead <= size && pos <= e.length
      invariant Arrived(buffer[..], was, data, base, bytesRead)
      invariant Transferred(size, offset, e.length, memory) == bytesRead + Transferred(left, pos, e.length, memory)
      invariant bounce != null ==> memory && fresh(bounce) && bounce.Length == SECTOR_SIZE
    {
      var chunk := Min(left, Min(e.length - pos, SECTOR_SIZE - pos % SECTOR_SIZE));
      if chunk <= 0 {
        break;
      }
      if bounce == null && !(pos % SECTOR_SIZE == 0 && chunk == SECTOR_SIZE) {
        if !memory {
          break;
        }
        bounce := new byte[SECTOR_SIZE];
      }
      ghost var before := buffer[..];
      ReadChunk(device, e, left, pos, chunk, buffer, bytesRead, bounce);
      assert bytesRead + chunk <= size;
      NextChunk(left, pos, e.length, memory);
      ArrivesOn(before, buffer[..], was, data, base, bytesRead, chunk);
      left := left - chunk;
      pos := pos + chunk;
      bytesRead := bytesRead + chunk;
    }
    LastChunk(left, pos, e.length, memory);
    ArrivedContent(buffer[..], was, data, e, offset, bytesRead);
  }

  // ---------------------------------------------------------------------
  // Writing
  // ---------------------------------------------------------------------

  /** n bytes of the buffer have been written from position p on, nothing else. */
  ghost predicate Written(data: seq<byte>, was: seq<byte>, buffer: seq<byte>, p: nat, n: nat) {
    && |data| == |was| && n <= |buffer| && (n > 0 ==> p + n <= |was|)
    && forall i :: 0 <= i < |was| ==> data[i] == if p <= i < p + n then buffer[i - p] else was[i]
  }

  lemma WrittenNothing(was: seq<byte>, buffer: seq<byte>, p: nat)
    ensures Written(was, was, buffer, p, 0)
  {
  }

  lemma WritesOn(data: seq<byte>, data': seq<byte>, was: seq<byte>, buffer: seq<byte>, p: nat, n: nat, c: nat)
    requires Written(data, was, buffer, p, n) && n + c <= |buffer| && p + n + c <= |was|
    requires data' == Replace(data, p + n, buffer[n..n + c])
    ensures Written(data', was, buffer, p, n + c)
  {
  }

  /** Writing back a sector with one part replaced replaces that part. */
  lemma SectorUpdate(data: seq<byte>, q: nat, ofs: nat, bytes: seq<byte>)
    requires q + SECTOR_SIZE <= |data| && ofs + |bytes| <= SECTOR_SIZE
    ensures Replace(data, q, Replace(data[q..q + SECTOR_SIZE], ofs, bytes)) == Replace(data, q + ofs, bytes)
  {
  }

  /** A chunk written through the bounce buffer.  It never fills its sector: such a chunk
      is written directly, so the branch that fills the buffer with zeros is dead. */
  method WritePart(device: Device, sector: nat, ofs: nat, chunk: nat, buffer: array<byte>, at: nat, bounce: array<byte>)
    requires SECTOR_SIZE * sector + SECTOR_SIZE <= |device.data| && ofs + chunk <= SECTOR_SIZE == bounce.Length
    requires at + chunk <= buffer.Length && bounce != buffer && !(ofs == 0 && chunk == SECTOR_SIZE)
    modifies device, bounce
    ensures device.data == Replace(old(device.data), SECTOR_SIZE * sector + ofs, buffer[at..at + chunk])
  {
    hide Replace;
    ghost var data := device.data;
    var sectorLeft := SECTOR_SIZE - ofs;
    ReplaceAll(bounce[..], data[SECTOR_SIZE * sector..SECTOR_SIZE * sector + SECTOR_SIZE]);
    if ofs > 0 || chunk < sectorLeft {
      device.BlockRead(sector, bounce, 0);
    } else {
      assert false;
    }
    ghost var q := SECTOR_SIZE * sector;
    assert bounce[..] == data[q..q + SECTOR_SIZE];
    Copy(bounce, ofs, buffer, at, chunk);
    assert bounce[..] == Replace(data[q..q + SECTOR_SIZE], ofs, buffer[at..at + chunk]);
    device.BlockWrite(sector, bounce[..]);
    SectorUpdate(data, SECTOR_SIZE * sector, ofs, buffer[at..at + chunk]);
  }

  /** The body of the loop of inode_write_at(). */
  method WriteChunk(device: Device, e: Extent, ghost left: int, pos: nat, chunk: nat,
                    buffer: array<byte>, at: nat, bounce: array?<byte>)
    requires device.Holds(e) && 0 < chunk == Chunk(left, pos, e.length) && at + chunk <= buffer.Length
    requires bounce != buffer && (bounce != null ==> bounce.Length == SECTOR_SIZE)
    requires bounce == null ==> pos % SECTOR_SIZE == 0 && chunk == SECTOR_SIZE
    modifies device, if bounce == null then {} else {bounce}
    ensures var p := SECTOR_SIZE * e.start + pos;
            && p + chunk <= |old(device.data)|
            && device.data == Replace(old(device.data), p, buffer[at..at + chunk])
    ensures pos + chunk <= e.length && chunk <= left
  {
    var sector, sectorOfs := e.start + pos / SECTOR_SIZE, pos % SECTOR_SIZE;
    ChunkPlace(e, left, pos);
    if sectorOfs == 0 && chunk == SECTOR_SIZE {
      device.BlockWrite(sector, buffer[at..at + SECTOR_SIZE]);
    } else {
      WritePart(device, sector, sectorOfs, chunk, buffer, at, bounce);
    }
  }

  /** inode_write_at(): exactly the bytes of the file from offset on, clipped to the
      file's length, become those of the buffer; no other byte of the device changes. */
  method WriteAt(device: Device, e: Extent, denyWriteCnt: nat, buffer: array<byte>, size: int, offset: nat,
      memory: bool)
    returns (bytesWritten: nat)
    requires device.Holds(e) && size <= buffer.Length
    modifies device
    ensures bytesWritten
            == (if denyWriteCnt > 0 then 0 else Transferred(size, offset, e.length, memory)) <= buffer.Length
    ensures Written(device.data, old(device.data), buffer[..], SECTOR_SIZE * e.start + offset, bytesWritten)
    ensures bytesWritten > 0 ==> offset + bytesWritten <= e.length
  {
    hide Written, Transferred, Replace;
    bytesWritten := 0;
    WrittenNothing(device.data, buffer[..], SECTOR_SIZE * e.start + offset);
    if denyWriteCnt > 0 {
      return;
    }
    var left, pos := size, offset;
    var bounce: array?<byte> := null;
    ghost var base, was, bytes := SECTOR_SIZE * e.start + offset, device.data, buffer[..];
    while left > 0
      invariant left == size - bytesWritten && pos == offset + bytesWritten
      invariant bytesWritten > 0 ==> bytesWritten <= size && pos <= e.length
      invariant buffer[..] == bytes && device.Holds(e) && Written(device.data, was, bytes, base, bytesWritten)
      invariant Transferred(size, offset, e.length, memory) == bytesWritten + Transferred(left, pos, e.length, memory)
      invariant bounce != null ==> memory && fresh(bounce) && bounce.Length == SECTOR_SIZE
    {
      var chunk := Min(left, Min(e.length - pos, SECTOR_SIZE - pos % SECTOR_SIZE));
      if chunk <= 0 {
        break;
      }
      if bounce == null && !(pos % SECTOR_SIZE == 0 && chunk == SECTOR_SIZE) {
        if !memory {
          break;
        }
        bounce := new byte[SECTOR_SIZE];
      }
      ghost var before := device.data;
      WriteChunk(device, e, left, pos, chunk, buffer, bytesWritten, bounce);
      assert bytesWritten + chunk <= size && buffer[..] == bytes;
      assert buffer[bytesWritten..bytesWritten + chunk] == bytes[bytesWritten..bytesWritten + chunk];
      NextChunk(left, pos, e.length, memory);
      WritesOn(before, device.data, was, bytes, base, bytesWritten, chunk);
      left := left - chunk;
      pos := pos + chunk;
      bytesWritten := bytesWritten + chunk;
    }
    LastChunk(left, pos, e.length, memory);
  }

  /** With memory, what a write moves is the request clipped to the file; without, the
      two agree exactly for whole sectors. */
  lemma TransferredAll(size: int, offset: nat, length: nat, memory: bool)
    ensures Transferred(size, offset, length, memory) == Clip(size, offset, length) <==>
            memory || Clip(size, offset, length) == 0
                || (offset % SECTOR_SIZE == 0 && Clip(size, offset, length) % SECTOR_SIZE == 0)
  {
    var n := Clip(size, offset, length);
    assert n == n / SECTOR_SIZE * SECTOR_SIZE + n % SECTOR_SIZE;
  }

  /** What inode_read_at() returns after inode_write_at() put n bytes at offset: those
      bytes, followed by what the file held before. */
  lemma ReadBack(data: seq<byte>, was: seq<byte>, from: seq<byte>, e: Extent, offset: nat, n: nat,
                 to: seq<byte>, toWas: seq<byte>, m: nat)
    requires Written(data, was, from, SECTOR_SIZE * e.start + offset, n)
    requires SECTOR_SIZE * e.start + e.length <= |data|
    requires (n > 0 ==> offset + n <= e.length) && (m > 0 ==> offset + m <= e.length) && m <= |toWas|
    requires to == Part(Content(data, e), offset, m) + toWas[m..]
    ensures |to| == |toWas| && forall i :: 0 <= i < m ==>
            to[i] == if i < n then from[i] else Content(was, e)[offset + i]
  {
    forall i | 0 <= i < m ensures to[i] == if i < n then from[i] else Content(was, e)[offset + i] {
      WriteThenRead(data, was, from, e, offset, n, offset + i);
    }
  }

  /** After a write of n bytes at offset, the file holds the buffer there and what it
      held before elsewhere... */
  lemma WriteThenRead(data: seq<byte>, was: seq<byte>, buffer: seq<byte>, e: Extent, offset: nat, n: nat, i: nat)
    requires Written(data, was, buffer, SECTOR_SIZE * e.start + offset, n)
    requires SECTOR_SIZE * e.start + e.length <= |data| && (n > 0 ==> offset + n <= e.length) && i < e.length
    ensures Content(data, e)[i] == if offset <= i < offset + n then buffer[i - offset] else Content(was, e)[i]
  {
  }

  lemma ExtentBytes(e: Extent, i: nat)
    requires SECTOR_SIZE * e.start <= i < SECTOR_SIZE * e.start + e.length
    ensures InExtent(i / SECTOR_SIZE, e)
  {
  }

  /** ...and a file whose sectors are apart, as the invariant of FileSystems says of
      any two inodes, is untouched. */
  lemma OtherFileUntouched(data: seq<byte>, was: seq<byte>, buffer: seq<byte>, s: nat, e: Extent, t: nat, f: Extent,
                           offset: nat, n: nat)
    requires Written(data, was, buffer, SECTOR_SIZE * e.start + offset, n) && offset + n <= e.length
    requires Apart(s, e, t, f) && SECTOR_SIZE * f.start + f.length <= |data|
    ensures Content(data, f) == Content(was, f)
  {
    forall i | SECTOR_SIZE * f.start <= i < SECTOR_SIZE * f.start + f.length ensures data[i] == was[i] {
      ExtentBytes(f, i);
      if SECTOR_SIZE * e.start + offset <= i < SECTOR_SIZE * e.start + offset + n {
        ExtentBytes(e, i);
        assert Occupies(i / SECTOR_SIZE, s, e) && Occupies(i / SECTOR_SIZE, t, f);
      }
    }
  }
}

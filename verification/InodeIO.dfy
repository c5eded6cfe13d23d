/** inode_read_at and inode_write_at of pintos/src/filesys/inode.c: files read and written sector by
    sector, partial sectors through a bounce buffer, against a device seen as one array of bytes. */
module InodeIO {
  import opened Bytes

  const SECTOR_SIZE: int := 512

  type Sector = s: seq<Byte> | |s| == SECTOR_SIZE witness seq(SECTOR_SIZE, _ => 0)

  function Zeros(): Sector { seq(SECTOR_SIZE, _ => 0) }

  /** The block device. */
  class Device {
    var sectors: seq<Sector>

    constructor (n: nat)
      ensures |sectors| == n
    {
      sectors := seq(n, _ => seq(SECTOR_SIZE, _ => 0));
    }
  }

  /** The on-disk inode: a file is LENGTH bytes from the beginning of sector START. */
  datatype Extent = Extent(start: nat, length: nat)

  function BytesToSectors(size: nat): nat { (size + SECTOR_SIZE - 1) / SECTOR_SIZE }

  /** Just enough sectors. */
  lemma FewestSectors(size: nat)
    ensures size <= 512 * BytesToSectors(size) < size + 512
  {
  }

  /** bytes_to_sectors as it is computed: the sum is an int and wraps around, the result is a size_t. */
  function SectorsAsked(size: nat): nat {
    var sum := size + SECTOR_SIZE - 1;
    var wrapped := if sum < 0x8000_0000 then sum else sum - 0x1_0000_0000;
    (if wrapped < 0 then -(-wrapped / SECTOR_SIZE) else wrapped / SECTOR_SIZE) % 0x1_0000_0000
  }

  /** Disks of 1 GB and more are not accepted (pintos/src/devices/ide.c). */
  const MAX_SECTORS: nat := 0x20_0000

  /** Where the sum wraps around, neither number of sectors is to be had. */
  lemma AskedOrTooMany(size: nat)
    requires size < 0x8000_0000
    ensures if size <= 0x7fff_fe00 then SectorsAsked(size) == BytesToSectors(size)
            else SectorsAsked(size) > MAX_SECTORS && BytesToSectors(size) > MAX_SECTORS
    ensures size > 0x7fff_fe00 ==> SectorsAsked(size) == if size == 0x7fff_fe01 then 0xffc0_0000 else 0xffc0_0001
  {
  }

  predicate Fits(disk: seq<Sector>, e: Extent) { e.start + BytesToSectors(e.length) <= |disk| }

  /** Byte A of the device. */
  function ByteAt(disk: seq<Sector>, a: nat): Byte
    requires a < |disk| * SECTOR_SIZE
  {
    disk[a / SECTOR_SIZE][a % SECTOR_SIZE]
  }

  /** Where byte POS of the file is on the device. */
  function Address(e: Extent, pos: nat): nat { e.start * SECTOR_SIZE + pos }

  lemma AddressFits(disk: seq<Sector>, e: Extent, pos: nat)
    requires Fits(disk, e) && pos < e.length
    ensures Address(e, pos) < |disk| * SECTOR_SIZE
    ensures Address(e, pos) / SECTOR_SIZE == e.start + pos / SECTOR_SIZE < |disk|
    ensures Address(e, pos) % SECTOR_SIZE == pos % SECTOR_SIZE
  {
  }

  /** The contents of a file. */
  function FileBytes(disk: seq<Sector>, e: Extent): (r: seq<Byte>)
    requires Fits(disk, e)
    ensures |r| == e.length
  {
    seq(e.length, i requires 0 <= i < e.length => AddressFits(disk, e, i); ByteAt(disk, Address(e, i)))
  }

  /** How many of SIZE bytes from OFFSET on lie inside the file. */
  function Available(size: int, offset: nat, length: nat): nat {
    if size <= 0 || offset >= length then 0 else if size < length - offset then size else length - offset
  }

  /** All of the request, or all that the file has from OFFSET on; nothing for an empty or negative request. */
  lemma AvailableIs(size: int, offset: nat, length: nat)
    ensures var n := Available(size, offset, length);
      && (n > 0 ==> n <= size && offset + n <= length && (n == size || offset + n == length))
      && (n == 0 <==> size <= 0 || length <= offset)
  {
  }

  /** DISK' is DISK with the bytes from address A on replaced by DATA, and nothing else. */
  ghost predicate Overwritten(disk: seq<Sector>, disk': seq<Sector>, a: nat, data: seq<Byte>) {
    && |disk'| == |disk| && a + |data| <= |disk| * SECTOR_SIZE
    && forall k :: 0 <= k < |disk| * SECTOR_SIZE ==>
         ByteAt(disk', k) == if a <= k < a + |data| then data[k - a] else ByteAt(disk, k)
  }

  /** TO is FROM with DATA copied over it from AT on. */
  ghost predicate CopiedInto(from: seq<Byte>, to: seq<Byte>, at: nat, data: seq<Byte>) {
    && |to| == |from| && at + |data| <= |from|
    && forall i :: 0 <= i < |from| ==> to[i] == if at <= i < at + |data| then data[i - at] else from[i]
  }

  method CopyOut(buffer: array<Byte>, at: nat, data: seq<Byte>)
    requires at + |data| <= buffer.Length
    modifies buffer
    ensures CopiedInto(old(buffer[..]), buffer[..], at, data)
  {
    var k := 0;
    while k < |data|
      invariant 0 <= k <= |data|
      invariant forall i :: 0 <= i < buffer.Length ==> buffer[i] == if at <= i < at + k then data[i - at] else old(buffer[i])
    {
      buffer[at + k] := data[k];
      k := k + 1;
    }
  }

  /** The chunk the loops transfer next: within the request, the file and the sector. */
  function Chunk(size: int, offset: nat, length: nat): int {
    var sectorLeft := SECTOR_SIZE - offset % SECTOR_SIZE;
    var minLeft := if length - offset < sectorLeft then length - offset else sectorLeft;
    if size < minLeft then size else minLeft
  }

  /** A chunk stays within the request, the file and one sector of the device; there is none when all that is
      available has been transferred. */
  lemma ChunkFits(disk: seq<Sector>, e: Extent, size: int, offset: nat, done: nat)
    requires Fits(disk, e) && size > 0 && done <= Available(size + done, offset, e.length)
    ensures var chunk := Chunk(size, offset + done, e.length);
      if chunk > 0 then
        && chunk <= size && offset + done + chunk <= e.length && (offset + done) % SECTOR_SIZE + chunk <= SECTOR_SIZE
        && done + chunk <= Available(size + done, offset, e.length)
        && e.start + (offset + done) / SECTOR_SIZE < |disk|
      else done == Available(size + done, offset, e.length)
  {
  }

  lemma AvailableWithin(size: int, offset: nat, length: nat)
    ensures Available(size, offset, length) <= if size < 0 then 0 else size
  {
  }

  lemma FileByte(disk: seq<Sector>, e: Extent, pos: nat)
    requires Fits(disk, e) && pos < e.length
    ensures e.start + pos / SECTOR_SIZE < |disk|
    ensures FileBytes(disk, e)[pos] == disk[e.start + pos / SECTOR_SIZE][pos % SECTOR_SIZE]
  {
    AddressFits(disk, e, pos);
  }

  /** TO is FROM with N bytes of FILE, from OFFSET on, at its front. */
  ghost predicate ReadInto(from: seq<Byte>, to: seq<Byte>, file: seq<Byte>, offset: nat, n: nat) {
    && |to| == |from| && n <= |from| && (n > 0 ==> offset + n <= |file|)
    && (forall i :: 0 <= i < n ==> to[i] == file[offset + i]) && (forall i :: n <= i < |from| ==> to[i] == from[i])
  }

  lemma ReadMore(b0: seq<Byte>, b1: seq<Byte>, b2: seq<Byte>, file: seq<Byte>, offset: nat, n: nat, data: seq<Byte>)
    requires ReadInto(b0, b1, file, offset, n) && CopiedInto(b1, b2, n, data)
    requires offset + n + |data| <= |file| && data == file[offset + n..offset + n + |data|]
    ensures ReadInto(b0, b2, file, offset, n + |data|)
  {
    forall i | 0 <= i < n + |data| ensures b2[i] == file[offset + i] {
      if i >= n { assert data[i - n] == file[offset + n..offset + n + |data|][i - n]; }
    }
  }

  /** The part of one sector that a chunk takes is the next part of the file. */
  lemma ChunkOfFile(disk: seq<Sector>, e: Extent, offset: nat, chunk: nat)
    requires Fits(disk, e) && 0 < chunk && offset + chunk <= e.length && offset % SECTOR_SIZE + chunk <= SECTOR_SIZE
    ensures e.start + offset / SECTOR_SIZE < |disk|
    ensures disk[e.start + offset / SECTOR_SIZE][offset % SECTOR_SIZE..offset % SECTOR_SIZE + chunk]
         == FileBytes(disk, e)[offset..offset + chunk]
  {
    FileByte(disk, e, offset);
    hide FileBytes;
    var x := disk[e.start + offset / SECTOR_SIZE][offset % SECTOR_SIZE..offset % SECTOR_SIZE + chunk];
    var y := FileBytes(disk, e)[offset..offset + chunk];
    forall i | 0 <= i < chunk ensures x[i] == y[i] {
      FileByte(disk, e, offset + i);
      assert (offset + i) / SECTOR_SIZE == offset / SECTOR_SIZE;
    }
  }

  /** Reads up to SIZE bytes from OFFSET on into BUFFER; MEMORY says whether a bounce buffer can be
      allocated. */
  method ReadAt(dev: Device, e: Extent, buffer: array<Byte>, size0: int, offset0: nat, memory: bool) returns (bytesRead: nat)
    requires Fits(dev.sectors, e) && size0 <= buffer.Length
    modifies buffer
    ensures bytesRead <= Available(size0, offset0, e.length) && (memory ==> bytesRead == Available(size0, offset0, e.length))
    ensures ReadInto(old(buffer[..]), buffer[..], FileBytes(dev.sectors, e), offset0, bytesRead)
  {
    hide ReadInto, CopiedInto, FileBytes, Chunk, Available, Fits;
    AvailableWithin(size0, offset0, e.length);
    ghost var was, file := buffer[..], FileBytes(dev.sectors, e);
    var size, offset := size0, offset0;
    bytesRead := 0;
    NothingRead(was, file, offset0);
    while size > 0
      invariant bytesRead + size == size0 && offset == offset0 + bytesRead && bytesRead <= Available(size0, offset0, e.length)
      invariant ReadInto(was, buffer[..], file, offset0, bytesRead)
    {
      var sectorOfs := offset % SECTOR_SIZE;
      var chunkSize := Chunk(size, offset, e.length);
      ChunkFits(dev.sectors, e, size, offset0, bytesRead);
      if chunkSize <= 0 { break; }
      ChunkOfFile(dev.sectors, e, offset, chunkSize);
      var sectorIdx := e.start + offset / SECTOR_SIZE;
      var sector := dev.sectors[sectorIdx];
      ghost var data, before := sector[sectorOfs..sectorOfs + chunkSize], buffer[..];
      if sectorOfs == 0 && chunkSize == SECTOR_SIZE {
        assert sector == data;
        CopyOut(buffer, bytesRead, sector);
      } else {
        if !memory { break; }
        CopyOut(buffer, bytesRead, sector[sectorOfs..sectorOfs + chunkSize]);
      }
      ReadMore(was, before, buffer[..], file, offset0, bytesRead, data);
      size := size - chunkSize;
      offset := offset + chunkSize;
      bytesRead := bytesRead + chunkSize;
    }
  }

  lemma NothingRead(b: seq<Byte>, file: seq<Byte>, offset: nat)
    ensures ReadInto(b, b, file, offset, 0)
  {
  }

  function Patched(s: Sector, ofs: nat, data: seq<Byte>): (r: Sector)
    requires ofs + |data| <= SECTOR_SIZE
  {
    s[..ofs] + data + s[ofs + |data|..]
  }

  lemma PatchSector(disk: seq<Sector>, idx: nat, ofs: nat, data: seq<Byte>)
    requires idx < |disk| && ofs + |data| <= SECTOR_SIZE
    ensures Overwritten(disk, disk[idx := Patched(disk[idx], ofs, data)], idx * SECTOR_SIZE + ofs, data)
  {
    var disk' := disk[idx := Patched(disk[idx], ofs, data)];
    var a := idx * SECTOR_SIZE + ofs;
    forall k | 0 <= k < |disk| * SECTOR_SIZE
      ensures ByteAt(disk', k) == if a <= k < a + |data| then data[k - a] else ByteAt(disk, k)
    {
      if k / SECTOR_SIZE == idx { assert k % SECTOR_SIZE == k - idx * SECTOR_SIZE; }
    }
  }

  lemma OverwriteMore(d0: seq<Sector>, d1: seq<Sector>, d2: seq<Sector>, a: nat, x: seq<Byte>, y: seq<Byte>)
    requires Overwritten(d0, d1, a, x) && Overwritten(d1, d2, a + |x|, y)
    ensures Overwritten(d0, d2, a, x + y)
  {
    forall k | 0 <= k < |d0| * SECTOR_SIZE
      ensures ByteAt(d2, k) == if a <= k < a + |x + y| then (x + y)[k - a] else ByteAt(d0, k)
    {
      assert ByteAt(d1, k) == if a <= k < a + |x| then x[k - a] else ByteAt(d0, k);
    }
  }

  /** Writes up to SIZE bytes of BUFFER from OFFSET on, unless writes are denied. */
  method WriteAt(dev: Device, e: Extent, denied: bool, buffer: array<Byte>, size0: int, offset0: nat, memory: bool)
    returns (bytesWritten: nat)
    requires Fits(dev.sectors, e) && size0 <= buffer.Length
    modifies dev
    ensures denied ==> bytesWritten == 0
    ensures bytesWritten <= Available(size0, offset0, e.length) && bytesWritten <= buffer.Length
    ensures memory && !denied ==> bytesWritten == Available(size0, offset0, e.length)
    ensures bytesWritten == 0 ==> dev.sectors == old(dev.sectors)
    ensures bytesWritten > 0 ==> Overwritten(old(dev.sectors), dev.sectors, Address(e, offset0), buffer[..bytesWritten])
  {
    hide Overwritten, Chunk, Available;
    AvailableWithin(size0, offset0, e.length);
    if denied { return 0; }
    ghost var disk, a := dev.sectors, Address(e, offset0);
    var size, offset := size0, offset0;
    bytesWritten := 0;
    while size > 0
      invariant bytesWritten + size == size0 && offset == offset0 + bytesWritten
      invariant bytesWritten <= Available(size0, offset0, e.length) && bytesWritten <= buffer.Length
      invariant |dev.sectors| == |disk|
      invariant bytesWritten == 0 ==> dev.sectors == disk
      invariant bytesWritten > 0 ==> Overwritten(disk, dev.sectors, a, buffer[..bytesWritten])
    {
      var sectorOfs := offset % SECTOR_SIZE;
      var chunkSize := Chunk(size, offset, e.length);
      ChunkFits(dev.sectors, e, size, offset0, bytesWritten);
      if chunkSize <= 0 { break; }
      var sectorIdx := e.start + offset / SECTOR_SIZE;
      var data := buffer[bytesWritten..bytesWritten + chunkSize];
      if !(sectorOfs == 0 && chunkSize == SECTOR_SIZE) && !memory { break; }
      ghost var before := dev.sectors;
      WriteChunk(dev, sectorIdx, sectorOfs, data);
      Grow(disk, before, dev.sectors, a, buffer[..bytesWritten], data, sectorIdx * SECTOR_SIZE + sectorOfs);
      assert buffer[..bytesWritten + chunkSize] == buffer[..bytesWritten] + data;
      size := size - chunkSize;
      offset := offset + chunkSize;
      bytesWritten := bytesWritten + chunkSize;
    }
  }

  /** One sector: written whole, or read, patched and written back. */
  method WriteChunk(dev: Device, sectorIdx: nat, sectorOfs: nat, data: seq<Byte>)
    requires sectorIdx < |dev.sectors| && sectorOfs + |data| <= SECTOR_SIZE
    modifies dev
    ensures Overwritten(old(dev.sectors), dev.sectors, sectorIdx * SECTOR_SIZE + sectorOfs, data)
  {
    PatchSector(dev.sectors, sectorIdx, sectorOfs, data);
    if sectorOfs == 0 && |data| == SECTOR_SIZE {
      assert Patched(dev.sectors[sectorIdx], 0, data) == data;
      dev.sectors := dev.sectors[sectorIdx := data];
    } else {
      var bounce := if sectorOfs > 0 || |data| < SECTOR_SIZE - sectorOfs then dev.sectors[sectorIdx] else Zeros();
      dev.sectors := dev.sectors[sectorIdx := Patched(bounce, sectorOfs, data)];
    }
  }

  lemma Grow(d0: seq<Sector>, d1: seq<Sector>, d2: seq<Sector>, a: nat, x: seq<Byte>, y: seq<Byte>, b: nat)
    requires b == a + |x| && Overwritten(d1, d2, b, y)
    requires if x == [] then d1 == d0 else Overwritten(d0, d1, a, x)
    ensures Overwritten(d0, d2, a, x + y) && |d2| == |d1|
  {
    if x == [] { assert x + y == y; } else { OverwriteMore(d0, d1, d2, a, x, y); }
  }

  /** A write followed by a read: the file is as before except for the bytes written. */
  lemma ReadAfterWrite(disk: seq<Sector>, disk': seq<Sector>, e: Extent, offset: nat, data: seq<Byte>)
    requires Fits(disk, e) && offset + |data| <= e.length && Overwritten(disk, disk', Address(e, offset), data)
    ensures Fits(disk', e)
    ensures FileBytes(disk', e) == FileBytes(disk, e)[..offset] + data + FileBytes(disk, e)[offset + |data|..]
  {
    forall i | 0 <= i < e.length
      ensures FileBytes(disk', e)[i] == if offset <= i < offset + |data| then data[i - offset] else FileBytes(disk, e)[i]
    {
      AddressFits(disk, e, i);
      assert ByteAt(disk', Address(e, i)) == FileBytes(disk', e)[i];
    }
  }

  /** A write to one file leaves every file on other sectors alone. */
  lemma OtherFileKept(disk: seq<Sector>, disk': seq<Sector>, e: Extent, offset: nat, data: seq<Byte>, f: Extent)
    requires Fits(disk, e) && offset + |data| <= e.length && Overwritten(disk, disk', Address(e, offset), data)
    requires Fits(disk, f)
    requires e.start + BytesToSectors(e.length) <= f.start || f.start + BytesToSectors(f.length) <= e.start
    ensures Fits(disk', f) && FileBytes(disk', f) == FileBytes(disk, f)
  {
    forall i | 0 <= i < f.length ensures FileBytes(disk', f)[i] == FileBytes(disk, f)[i] {
      AddressFits(disk, f, i);
      assert ByteAt(disk', Address(f, i)) == FileBytes(disk', f)[i];
    }
  }

  // ---------- inodes on the device

  const INODE_MAGIC: nat := 0x494e4f44

  /** START fits in a block_sector_t and LENGTH in an off_t. */
  predicate Storable(e: Extent) { e.start < 0x1_0000_0000 && e.length < 0x8000_0000 }

  /** struct inode_disk. */
  function EncodeInode(e: Extent): Sector
    requires Storable(e)
  {
    WordBytes(e.start) + WordBytes(e.length) + WordBytes(INODE_MAGIC) + seq(SECTOR_SIZE - 12, _ => 0)
  }

  function DecodeInode(s: Sector): Extent { Extent(Word(s[..4]), Word(s[4..8])) }

  lemma InodeRoundTrip(e: Extent)
    requires Storable(e)
    ensures DecodeInode(EncodeInode(e)) == e
  {
    var s := EncodeInode(e);
    assert s[..4] == WordBytes(e.start) && s[4..8] == WordBytes(e.length);
  }

  /** The layout of an inode: the first sector, the length, the magic number and unused bytes. */
  lemma InodeLayout(e: Extent)
    requires Storable(e)
    ensures var s := EncodeInode(e);
      && LittleEndian(s[0], s[1], s[2], s[3]) == e.start && LittleEndian(s[4], s[5], s[6], s[7]) == e.length
      && s[8..12] == [0x44, 0x4f, 0x4e, 0x49] && forall k :: 12 <= k < 512 ==> s[k] == 0
  {
    InodeRoundTrip(e);
  }

  /** Sector K of DISK with the inode E in sector H and N sectors of zeros for its data. */
  function InodeSector(disk: seq<Sector>, h: nat, e: Extent, n: nat, k: nat): Sector
    requires k < |disk| && Storable(e)
  {
    if e.start <= k < e.start + n then Zeros() else if k == h then EncodeInode(e) else disk[k]
  }

  /** DISK with the inode E in sector H and zeros for its data. */
  function WithInode(disk: seq<Sector>, h: nat, e: Extent): (r: seq<Sector>)
    requires Storable(e)
    ensures |r| == |disk|
  {
    seq(|disk|, k requires 0 <= k < |disk| => InodeSector(disk, h, e, BytesToSectors(e.length), k))
  }

  /** inode_create, once the data sectors are allocated: the header, then zeros for all of the data. */
  method WriteInode(dev: Device, h: nat, e: Extent)
    requires h < |dev.sectors| && Storable(e) && Fits(dev.sectors, e)
    modifies dev
    ensures dev.sectors == WithInode(old(dev.sectors), h, e)
  {
    hide EncodeInode;
    ghost var disk := dev.sectors;
    var sectors := BytesToSectors(e.length);
    dev.sectors := dev.sectors[h := EncodeInode(e)];
    var i := 0;
    while i < sectors
      invariant 0 <= i <= sectors && |dev.sectors| == |disk|
      invariant forall k :: 0 <= k < |disk| ==> dev.sectors[k] == InodeSector(disk, h, e, i, k)
    {
      dev.sectors := dev.sectors[e.start + i := Zeros()];
      i := i + 1;
    }
  }

  /** A new file reads as zeros, whatever its sectors held before. */
  lemma NewFileIsZero(disk: seq<Sector>, h: nat, e: Extent)
    requires Storable(e) && Fits(disk, e)
    ensures FileBytes(WithInode(disk, h, e), e) == seq(e.length, _ => 0)
  {
    var d := WithInode(disk, h, e);
    forall i | 0 <= i < e.length ensures FileBytes(d, e)[i] == 0 {
      FileByte(d, e, i);
      assert d[e.start + i / SECTOR_SIZE] == Zeros();
    }
  }

  /** A write to a file changes none of the other sectors. */
  lemma SectorKept(disk: seq<Sector>, disk': seq<Sector>, e: Extent, offset: nat, data: seq<Byte>, k: nat)
    requires Fits(disk, e) && offset + |data| <= e.length && Overwritten(disk, disk', Address(e, offset), data)
    requires k < |disk| && !(e.start <= k < e.start + BytesToSectors(e.length))
    ensures disk'[k] == disk[k]
  {
    forall b | 0 <= b < SECTOR_SIZE ensures disk'[k][b] == disk[k][b] {
      var x := k * SECTOR_SIZE + b;
      assert x / SECTOR_SIZE == k && x % SECTOR_SIZE == b;
      assert ByteAt(disk', x) == ByteAt(disk, x);
    }
  }

  /** A file all of whose sectors are as before. */
  lemma FileKept(disk: seq<Sector>, disk': seq<Sector>, f: Extent)
    requires Fits(disk, f) && |disk'| == |disk|
    requires forall k :: f.start <= k < f.start + BytesToSectors(f.length) ==> disk'[k] == disk[k]
    ensures FileBytes(disk', f) == FileBytes(disk, f)
  {
    forall i | 0 <= i < f.length ensures FileBytes(disk', f)[i] == FileBytes(disk, f)[i] {
      FileByte(disk, f, i);
      FileByte(disk', f, i);
    }
  }
}

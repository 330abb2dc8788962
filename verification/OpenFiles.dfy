/** OpenFile: reads and writes of any range of a file, by whole sectors. */
module OpenFiles {
  import opened Bytes
  import opened BitMaps
  import opened DiskFiles

  // ---- what the transfer buffer holds ----

  /** The buffer, which starts at file offset `base`, holds the file's bytes from `from` up to `upTo`. */
  ghost predicate BufferHolds(buf: seq<Byte>, base: nat, file: seq<Byte>, from: nat, upTo: nat) {
    forall a :: 0 <= a < |buf| && from <= base + a < upTo && base + a < |file| ==> buf[a] == file[base + a]
  }

  /** Sector `i` of the buffer. */
  function Chunk(buf: seq<Byte>, i: nat): (s: Sector)
    requires (i + 1) * SECTOR_SIZE <= |buf|
  {
    buf[i * SECTOR_SIZE..(i + 1) * SECTOR_SIZE]
  }

  /** Disk `d` with the buffer's sectors written over sectors `first` up to `next` of the file. */
  ghost predicate SectorsWritten(d: seq<Sector>, h: Header, buf: seq<Byte>, first: nat, next: nat, d': seq<Sector>) {
    && |d'| == |d| == NUM_SECTORS && HeaderOK(h) && first <= next <= h.numSectors
    && (next - first) * SECTOR_SIZE <= |buf|
    && (forall i :: first <= i < next ==> d'[h.dataSectors[i]] == Chunk(buf, i - first))
    && (forall s :: 0 <= s < NUM_SECTORS && (forall i :: first <= i < next ==> h.dataSectors[i] != s) ==> d'[s] == d[s])
  }

  lemma ByteWrittenBack(d: seq<Sector>, h: Header, buf: seq<Byte>, first: nat, next: nat, d': seq<Sector>, k: nat)
    requires SectorsWritten(d, h, buf, first, next, d') && k < h.numBytes && k / SECTOR_SIZE < h.numSectors
    ensures first <= k / SECTOR_SIZE < next ==>
      0 <= k - first * SECTOR_SIZE < |buf| && FileByte(d', h, k) == buf[k - first * SECTOR_SIZE]
    ensures !(first <= k / SECTOR_SIZE < next) ==> FileByte(d', h, k) == FileByte(d, h, k)
  {
    var i := k / SECTOR_SIZE;
    assert k == i * SECTOR_SIZE + k % SECTOR_SIZE;
    if first <= i < next {
      assert d'[h.dataSectors[i]] == Chunk(buf, i - first);
    } else {
      assert forall j :: first <= j < next ==> h.dataSectors[j] != h.dataSectors[i];
    }
  }

  /** Sectors written from a buffer that holds `file`, in a file that already agrees with it elsewhere. */
  lemma FileWrittenBack(d: seq<Sector>, h: Header, file: seq<Byte>, buf: seq<Byte>, first: nat, next: nat, d': seq<Sector>)
    requires SectorsWritten(d, h, buf, first, next, d') && |file| == h.numBytes
    requires |buf| == (next - first) * SECTOR_SIZE
    requires BufferHolds(buf, first * SECTOR_SIZE, file, first * SECTOR_SIZE, next * SECTOR_SIZE)
    requires forall k :: 0 <= k < h.numBytes && !(first * SECTOR_SIZE <= k < next * SECTOR_SIZE) ==> file[k] == FileBytes(d, h)[k]
    ensures FileBytes(d', h) == file
  {
    SectorsFit(h);
    var file' := FileBytes(d', h);
    forall k | 0 <= k < h.numBytes ensures file'[k] == file[k] {
      ByteWrittenBack(d, h, buf, first, next, d', k);
      if first <= k / SECTOR_SIZE < next {
        var a := k - first * SECTOR_SIZE;
        assert buf[a] == file[first * SECTOR_SIZE + a];
      } else {
        assert file[k] == FileBytes(d, h)[k];
      }
    }
  }

  /** Writing back a buffer that holds the overwritten file, wherever the file reaches, is the write. */
  lemma WriteBackWrites(d: seq<Sector>, h: Header, position: nat, data: seq<Byte>, buf: seq<Byte>, d': seq<Sector>,
                        first: nat, next: nat)
    requires |d| == NUM_SECTORS && HeaderOK(h) && data != [] && position + |data| <= h.numBytes
    requires first == position / SECTOR_SIZE && next == (position + |data| - 1) / SECTOR_SIZE + 1
    requires SectorsWritten(d, h, buf, first, next, d') && |buf| == (next - first) * SECTOR_SIZE
    requires BufferHolds(buf, first * SECTOR_SIZE, Overwrite(FileBytes(d, h), position, data), first * SECTOR_SIZE, next * SECTOR_SIZE)
    ensures Written(d, h, position, data, d')
  {
    FileWrittenBack(d, h, Overwrite(FileBytes(d, h), position, data), buf, first, next, d');
    UntouchedKept(d, h, position, |data|, buf, d');
  }

  lemma UntouchedKept(d: seq<Sector>, h: Header, position: nat, n: nat, buf: seq<Byte>, d': seq<Sector>)
    requires n > 0 && HeaderOK(h) && position + n <= h.numBytes
    requires SectorsWritten(d, h, buf, position / SECTOR_SIZE, (position + n - 1) / SECTOR_SIZE + 1, d')
    ensures forall s :: 0 <= s < NUM_SECTORS && !Touched(h, position, n, s) ==> d'[s] == d[s]
  {
    var first, last := position / SECTOR_SIZE, (position + n - 1) / SECTOR_SIZE;
    forall s | 0 <= s < NUM_SECTORS && !Touched(h, position, n, s) ensures d'[s] == d[s] {
      assert forall i :: first <= i < last + 1 ==> h.dataSectors[i] != s;
    }
  }

  /** Reading one more sector into the buffer keeps what it held and adds that sector. */
  lemma SectorAdded(before: seq<Byte>, buf: seq<Byte>, base: nat, file: seq<Byte>, from: nat, upTo: nat, index: nat)
    requires |before| == |buf|
    requires forall a :: 0 <= a < |buf| && !(index * SECTOR_SIZE <= a < (index + 1) * SECTOR_SIZE) ==> buf[a] == before[a]
    requires BufferHolds(buf, base, file, base + index * SECTOR_SIZE, base + (index + 1) * SECTOR_SIZE)
    requires BufferHolds(before, base, file, from, upTo)
    ensures BufferHolds(buf, base, file, from, upTo)
  {
  }

  lemma HoldsLess(buf: seq<Byte>, base: nat, file: seq<Byte>, from: nat, upTo: nat, from': nat, upTo': nat)
    requires BufferHolds(buf, base, file, from, upTo) && from <= from' && upTo' <= upTo
    ensures BufferHolds(buf, base, file, from', upTo')
  {
  }

  /** Data copied over a buffer that holds the file around it gives the overwritten file. */
  lemma OverlayHolds(held: seq<Byte>, buf: seq<Byte>, base: nat, file: seq<Byte>, position: nat, data: seq<Byte>, end: nat)
    requires |held| == |buf| && base <= position && position - base + |data| <= |buf| && position + |data| <= |file|
    requires BufferHolds(held, base, file, base, position) && BufferHolds(held, base, file, position + |data|, end)
    requires forall a :: 0 <= a < |buf| ==>
      buf[a] == if position - base <= a < position - base + |data| then data[a - (position - base)] else held[a]
    ensures BufferHolds(buf, base, Overwrite(file, position, data), base, end)
  {
  }

  /** bcopy into a buffer */
  method CopyInto(buf: array<Byte>, at: nat, data: seq<Byte>)
    requires at + |data| <= buf.Length
    modifies buf
    ensures forall a :: 0 <= a < buf.Length ==> buf[a] == if at <= a < at + |data| then data[a - at] else old(buf[a])
  {
    var k := 0;
    while k < |data|
      invariant 0 <= k <= |data|
      invariant forall a :: 0 <= a < buf.Length ==> buf[a] == if at <= a < at + k then data[a - at] else old(buf[a])
    {
      buf[at + k] := data[k];
      k := k + 1;
    }
  }

  class OpenFile {
    const disk: SynchDisk
    const hdr: FileHeader
    var seekPosition: nat

    ghost predicate Valid()
      reads hdr
    {
      disk.Valid() && HeaderOK(hdr.Value()) && (hdr as object) != disk.sectors
    }

    ghost function Content(): (r: seq<Byte>)
      requires Valid()
      reads this, hdr, disk.sectors
    {
      FileBytes(disk.sectors[..], hdr.Value())
    }

    /** Opening brings the header into memory; the header must be one Allocate built. */
    constructor (disk: SynchDisk, sector: nat)
      requires disk.Valid() && sector < NUM_SECTORS && HeaderOK(DecodeHeader(disk.sectors[sector]))
      ensures Valid() && fresh(hdr) && this.disk == disk && seekPosition == 0
      ensures hdr.Value() == DecodeHeader(disk.sectors[sector])
    {
      this.disk := disk;
      hdr := new FileHeader(Header(0, 0, seq(NUM_DIRECT, _ => 0)));
      seekPosition := 0;
      new;
      hdr.FetchFrom(disk, sector);
    }

    /** Copies up to `numBytes` bytes of the file at `position` into `into` from index `at` on. */
    method ReadAt(into: array<Byte>, at: nat, numBytes: int, position: nat) returns (n: nat)
      requires Valid() && (into as object) != disk.sectors && (into as object) != hdr
      requires numBytes <= 0 || at + numBytes <= into.Length
      modifies into
      ensures n == Clipped(hdr.numBytes, numBytes, position)
      ensures forall a :: 0 <= a < into.Length ==>
        into[a] == if at <= a < at + n then Content()[position + (a - at)] else old(into[a])
    {
      var fileLength := hdr.FileLength();
      if numBytes <= 0 || position >= fileLength {
        return 0;
      }
      n := if position + numBytes > fileLength then fileLength - position else numBytes;
      SectorsFit(hdr.Value());
      var firstSector := position / SECTOR_SIZE;
      var lastSector := (position + n - 1) / SECTOR_SIZE;
      var buf := ReadSectors(firstSector, lastSector);
      var o := position - firstSector * SECTOR_SIZE;
      CopyInto(into, at, buf[o..o + n]);
    }

    /** The sector loop of ReadAt. */
    method ReadSectors(firstSector: nat, lastSector: nat) returns (buf: array<Byte>)
      requires Valid() && firstSector <= lastSector < hdr.numSectors
      ensures fresh(buf) && buf.Length == (1 + lastSector - firstSector) * SECTOR_SIZE
      ensures BufferHolds(buf[..], firstSector * SECTOR_SIZE, Content(), 0, hdr.numBytes)
    {
      buf := new Byte[(1 + lastSector - firstSector) * SECTOR_SIZE];
      var base := firstSector * SECTOR_SIZE;
      var i := firstSector;
      while i <= lastSector
        invariant firstSector <= i <= lastSector + 1
        invariant BufferHolds(buf[..], base, Content(), 0, i * SECTOR_SIZE)
        modifies buf
      {
        var data := disk.ReadSector(hdr.ByteToSector(i * SECTOR_SIZE));
        ghost var before := buf[..];
        CopyInto(buf, i * SECTOR_SIZE - base, data);
        forall a | 0 <= a < (i + 1) * SECTOR_SIZE - base && base + a < hdr.numBytes ensures buf[a] == Content()[base + a] {
          if base + a < i * SECTOR_SIZE {
            assert before[a] == Content()[base + a];
          } else {
            assert (base + a) / SECTOR_SIZE == i && (base + a) % SECTOR_SIZE == base + a - i * SECTOR_SIZE;
          }
        }
        i := i + 1;
      }
    }

    /** The buffer WriteAt sends to disk: the ends it must keep, then the data over them. */
    method FillBuffer(data: seq<Byte>, position: nat, firstSector: nat, lastSector: nat) returns (buf: array<Byte>)
      requires Valid() && data != [] && position + |data| <= hdr.numBytes
      requires firstSector == position / SECTOR_SIZE && lastSector == (position + |data| - 1) / SECTOR_SIZE
      ensures fresh(buf) && buf.Length == (1 + lastSector - firstSector) * SECTOR_SIZE
      ensures BufferHolds(buf[..], firstSector * SECTOR_SIZE, Overwrite(Content(), position, data),
                          firstSector * SECTOR_SIZE, (lastSector + 1) * SECTOR_SIZE)
    {
      buf := ReadEnds(|data|, position, firstSector, lastSector);
      ghost var held := buf[..];
      var base := firstSector * SECTOR_SIZE;
      CopyInto(buf, position - base, data);
      OverlayHolds(held, buf[..], base, Content(), position, data, (lastSector + 1) * SECTOR_SIZE);
    }

    /** The two conditional reads of WriteAt: the first and last sectors are read when the transfer covers them
        only in part. Together they hold every byte of the touched sectors that the transfer must keep. */
    method ReadEnds(n: nat, position: nat, firstSector: nat, lastSector: nat) returns (buf: array<Byte>)
      requires Valid() && n > 0 && position + n <= hdr.numBytes
      requires firstSector == position / SECTOR_SIZE && lastSector == (position + n - 1) / SECTOR_SIZE
      ensures fresh(buf) && buf.Length == (1 + lastSector - firstSector) * SECTOR_SIZE
      ensures BufferHolds(buf[..], firstSector * SECTOR_SIZE, Content(), firstSector * SECTOR_SIZE, position)
      ensures BufferHolds(buf[..], firstSector * SECTOR_SIZE, Content(), position + n, (lastSector + 1) * SECTOR_SIZE)
    {
      buf := new Byte[(1 + lastSector - firstSector) * SECTOR_SIZE];
      var firstAligned := position == firstSector * SECTOR_SIZE;
      var lastAligned := position + n == (lastSector + 1) * SECTOR_SIZE;
      ReadFirst(buf, firstAligned, position, firstSector);
      ReadLast(buf, firstAligned, lastAligned, position, position + n, firstSector, lastSector);
    }

    method ReadFirst(buf: array<Byte>, firstAligned: bool, position: nat, firstSector: nat)
      requires Valid() && (buf as object) != disk.sectors && (buf as object) != hdr && SECTOR_SIZE <= buf.Length
      requires firstSector * SECTOR_SIZE <= position < (firstSector + 1) * SECTOR_SIZE
      requires firstAligned <==> position == firstSector * SECTOR_SIZE
      modifies buf
      ensures var base := firstSector * SECTOR_SIZE;
              && BufferHolds(buf[..], base, Content(), base, position)
              && (!firstAligned ==> BufferHolds(buf[..], base, Content(), base, base + SECTOR_SIZE))
    {
      if !firstAligned {
        ghost var base := firstSector * SECTOR_SIZE;
        ReadSectorInto(buf, 0, firstSector, base);
        HoldsLess(buf[..], base, Content(), base + 0 * SECTOR_SIZE, base + 1 * SECTOR_SIZE, base, position);
      }
    }

    /** Reads the last sector unless the transfer covers it, or it is the first one and was read. */
    method ReadLast(buf: array<Byte>, firstAligned: bool, lastAligned: bool, position: nat, end: nat, firstSector: nat,
                    lastSector: nat)
      requires Valid() && (buf as object) != disk.sectors && (buf as object) != hdr && firstSector <= lastSector
      requires buf.Length == (1 + lastSector - firstSector) * SECTOR_SIZE && lastSector * SECTOR_SIZE < end
      requires lastAligned <==> end == (lastSector + 1) * SECTOR_SIZE
      requires end <= (lastSector + 1) * SECTOR_SIZE && firstSector * SECTOR_SIZE <= position
      requires var base := firstSector * SECTOR_SIZE;
               && BufferHolds(buf[..], base, Content(), base, position)
               && (!firstAligned ==> BufferHolds(buf[..], base, Content(), base, base + SECTOR_SIZE))
      modifies buf
      ensures var base := firstSector * SECTOR_SIZE;
              && BufferHolds(buf[..], base, Content(), base, position)
              && BufferHolds(buf[..], base, Content(), end, (lastSector + 1) * SECTOR_SIZE)
    {
      ghost var base, once, file := firstSector * SECTOR_SIZE, buf[..], Content();
      if !lastAligned && (firstSector != lastSector || firstAligned) {
        var index := lastSector - firstSector;
        ReadSectorInto(buf, index, lastSector, base);
        assert Content() == file;
        SectorAdded(once, buf[..], base, file, base, position, index);
        HoldsLess(buf[..], base, file, base + index * SECTOR_SIZE, base + (index + 1) * SECTOR_SIZE, end, (lastSector + 1) * SECTOR_SIZE);
      } else if !lastAligned {
        HoldsLess(once, base, file, base, base + SECTOR_SIZE, end, base + SECTOR_SIZE);
      }
    }

    /** ReadAt of one sector of the file, which may be its last, short one, into sector `index` of the buffer. */
    method ReadSectorInto(buf: array<Byte>, index: nat, sector: nat, ghost base: nat)
      requires Valid() && (index + 1) * SECTOR_SIZE <= buf.Length && base + index * SECTOR_SIZE == sector * SECTOR_SIZE
      requires (buf as object) != disk.sectors && (buf as object) != hdr
      modifies buf
      ensures forall a :: 0 <= a < buf.Length && !(index * SECTOR_SIZE <= a < (index + 1) * SECTOR_SIZE) ==> buf[a] == old(buf[a])
      ensures BufferHolds(buf[..], base, Content(), base + index * SECTOR_SIZE, base + (index + 1) * SECTOR_SIZE)
    {
      var n := ReadAt(buf, index * SECTOR_SIZE, SECTOR_SIZE, sector * SECTOR_SIZE);
    }

    /** Overwrites the file with `numBytes` bytes of `from` at `position`, clipped to the file's length. */
    method WriteAt(from: seq<Byte>, numBytes: int, position: nat) returns (n: nat)
      requires Valid() && numBytes <= |from|
      modifies disk.sectors
      ensures n == Clipped(hdr.numBytes, numBytes, position)
      ensures Written(old(disk.sectors[..]), hdr.Value(), position, from[..n], disk.sectors[..])
    {
      var fileLength := hdr.FileLength();
      if numBytes <= 0 || position >= fileLength {
        assert from[..0] == [];
        return 0;
      }
      n := if position + numBytes > fileLength then fileLength - position else numBytes;
      SectorsFit(hdr.Value());
      var firstSector := position / SECTOR_SIZE;
      var lastSector := (position + n - 1) / SECTOR_SIZE;
      var buf := FillBuffer(from[..n], position, firstSector, lastSector);
      ghost var d := disk.sectors[..];
      WriteSectors(buf[..], firstSector, lastSector);
      WriteBackWrites(d, hdr.Value(), position, from[..n], buf[..], disk.sectors[..], firstSector, lastSector + 1);
    }

    /** The sector loop of WriteAt. */
    method WriteSectors(buf: seq<Byte>, firstSector: nat, lastSector: nat)
      requires Valid() && firstSector <= lastSector < hdr.numSectors
      requires |buf| == (1 + lastSector - firstSector) * SECTOR_SIZE
      modifies disk.sectors
      ensures SectorsWritten(old(disk.sectors[..]), hdr.Value(), buf, firstSector, lastSector + 1, disk.sectors[..])
    {
      ghost var d := disk.sectors[..];
      var i := firstSector;
      while i <= lastSector
        invariant firstSector <= i <= lastSector + 1
        invariant SectorsWritten(d, hdr.Value(), buf, firstSector, i, disk.sectors[..])
      {
        disk.WriteSector(hdr.ByteToSector(i * SECTOR_SIZE), Chunk(buf, i - firstSector));
        i := i + 1;
      }
    }

    method Seek(position: nat)
      modifies this`seekPosition
      ensures seekPosition == position
    {
      seekPosition := position;
    }

    /** Sequential read: what ReadAt gives at the current position, which moves past it. */
    method Read(into: array<Byte>, at: nat, numBytes: int) returns (result: nat)
      requires Valid() && (into as object) != disk.sectors && (into as object) != hdr
      requires numBytes <= 0 || at + numBytes <= into.Length
      modifies into, this`seekPosition
      ensures result == Clipped(hdr.numBytes, numBytes, old(seekPosition))
      ensures seekPosition == old(seekPosition) + result
      ensures forall a :: 0 <= a < into.Length ==>
        into[a] == if at <= a < at + result then Content()[old(seekPosition) + (a - at)] else old(into[a])
    {
      result := ReadAt(into, at, numBytes, seekPosition);
      seekPosition := seekPosition + result;
    }

    method Write(from: seq<Byte>, numBytes: int) returns (result: nat)
      requires Valid() && numBytes <= |from|
      modifies disk.sectors, this`seekPosition
      ensures result == Clipped(hdr.numBytes, numBytes, old(seekPosition))
      ensures seekPosition == old(seekPosition) + result
      ensures Written(old(disk.sectors[..]), hdr.Value(), old(seekPosition), from[..result], disk.sectors[..])
    {
      result := WriteAt(from, numBytes, seekPosition);
      seekPosition := seekPosition + result;
    }
  }

  lemma TouchedInside(h: Header, position: nat, n: nat, s: int)
    requires HeaderOK(h)
    ensures Touched(h, position, n, s) ==> s in DataSet(h)
  {
  }

  /** A write into one file leaves every file that shares no sector with it as it was, byte for byte. */
  lemma OtherFileUntouched(d: seq<Sector>, h: Header, position: nat, data: seq<Byte>, d': seq<Sector>, other: Header)
    requires Written(d, h, position, data, d') && HeaderOK(other) && DataSet(h) !! DataSet(other)
    ensures FileBytes(d', other) == FileBytes(d, other)
  {
    SectorsFit(other);
    forall k | 0 <= k < other.numBytes ensures FileByte(d', other, k) == FileByte(d, other, k) {
      var s := other.dataSectors[k / SECTOR_SIZE];
      assert s in DataSet(other);
      TouchedInside(h, position, |data|, s);
    }
  }
}

/** Files on disk: the header that lists a file's sectors, and byte-granular reads and writes over whole sectors. */
module DiskFiles {
  import opened Bytes
  import opened BitMaps

  const SECTOR_SIZE := 128
  const NUM_SECTORS := 1024
  /** Data sectors a header has room for: (SectorSize - 2 * sizeof(int)) / sizeof(int). */
  const NUM_DIRECT := 30
  const MAX_FILE_SIZE := NUM_DIRECT * SECTOR_SIZE

  type Sector = s: seq<Byte> | |s| == SECTOR_SIZE witness seq(SECTOR_SIZE, _ => 0)

  // ---- file headers ----

  datatype Header = Header(numBytes: Word, numSectors: Word, dataSectors: seq<Word>)

  function EncodeHeader(h: Header): (s: Sector)
    requires |h.dataSectors| == NUM_DIRECT
  {
    EncodeWords([h.numBytes, h.numSectors] + h.dataSectors)
  }

  function DecodeHeader(s: Sector): (h: Header)
    ensures |h.dataSectors| == NUM_DIRECT
  {
    var ws := DecodeWords(s);
    Header(ws[0], ws[1], ws[2..])
  }

  /** A header written to its sector and fetched again is the same header. */
  lemma HeaderRoundTrip(h: Header)
    requires |h.dataSectors| == NUM_DIRECT
    ensures DecodeHeader(EncodeHeader(h)) == h
  {
    var ws := [h.numBytes, h.numSectors] + h.dataSectors;
    WordsRoundTrip(ws);
    assert ws[2..] == h.dataSectors;
  }

  /** A header Allocate built: as many sectors as the length needs, all on the disk, no sector twice. */
  ghost predicate HeaderOK(h: Header) {
    && |h.dataSectors| == NUM_DIRECT
    && h.numBytes <= MAX_FILE_SIZE
    && h.numSectors == DivRoundUp(h.numBytes, SECTOR_SIZE)
    && (forall i :: 0 <= i < h.numSectors ==> h.dataSectors[i] < NUM_SECTORS)
    && (forall i, j :: 0 <= i < j < h.numSectors ==> h.dataSectors[i] != h.dataSectors[j])
  }

  ghost function DataSet(h: Header): (r: set<int>)
    requires h.numSectors <= |h.dataSectors|
  {
    set i | 0 <= i < h.numSectors :: h.dataSectors[i]
  }

  lemma SectorsFit(h: Header)
    requires HeaderOK(h)
    ensures h.numSectors <= NUM_DIRECT && h.numBytes <= h.numSectors * SECTOR_SIZE
    ensures forall k :: 0 <= k < h.numBytes ==> k / SECTOR_SIZE < h.numSectors
  {
  }

  function FileByte(d: seq<Sector>, h: Header, k: nat): (b: Byte)
    requires |d| == NUM_SECTORS && k / SECTOR_SIZE < |h.dataSectors| && h.dataSectors[k / SECTOR_SIZE] < NUM_SECTORS
  {
    d[h.dataSectors[k / SECTOR_SIZE]][k % SECTOR_SIZE]
  }

  /** What the file reads as. */
  ghost function FileBytes(d: seq<Sector>, h: Header): (r: seq<Byte>)
    requires |d| == NUM_SECTORS && HeaderOK(h)
    ensures |r| == h.numBytes
    ensures forall k :: 0 <= k < h.numBytes ==> r[k] == FileByte(d, h, k)
  {
    SectorsFit(h);
    seq<Byte>(h.numBytes, k requires 0 <= k < h.numBytes => FileByte(d, h, k))
  }

  /** `file` with `data` written over it from `at` on. */
  function Overwrite(file: seq<Byte>, at: nat, data: seq<Byte>): (r: seq<Byte>)
    requires at + |data| <= |file|
    ensures |r| == |file|
    ensures forall k :: 0 <= k < |file| ==> r[k] == if at <= k < at + |data| then data[k - at] else file[k]
  {
    file[..at] + data + file[at + |data|..]
  }

  /** The number of bytes a request for `numBytes` at `position` transfers: all of them, or as many as the file has
      from there on; none for an empty request or one past the end. */
  function Clipped(length: nat, numBytes: int, position: nat): (n: nat)
    ensures n == 0 <==> numBytes <= 0 || position >= length
    ensures n > 0 ==> n <= numBytes && position + n <= length && (n == numBytes || position + n == length)
  {
    if numBytes <= 0 || position >= length then 0
    else if position + numBytes > length then length - position
    else numBytes
  }

  /** The sectors a transfer of n > 0 bytes at `position` touches. */
  ghost predicate Touched(h: Header, position: nat, n: nat, s: int) {
    && n > 0 && HeaderOK(h) && position + n <= h.numBytes
    && exists i :: position / SECTOR_SIZE <= i <= (position + n - 1) / SECTOR_SIZE && i < h.numSectors && h.dataSectors[i] == s
  }

  /** `d'` is disk `d` after `data` was written into the file at `position`: the file's bytes are overwritten
      exactly there, and sectors the transfer does not touch are as before. */
  ghost predicate Written(d: seq<Sector>, h: Header, position: nat, data: seq<Byte>, d': seq<Sector>)
  {
    && |d| == |d'| == NUM_SECTORS && HeaderOK(h)
    && (data != [] ==> position + |data| <= h.numBytes)
    && (data == [] ==> d' == d)
    && (data != [] ==> FileBytes(d', h) == Overwrite(FileBytes(d, h), position, data))
    && forall s :: 0 <= s < NUM_SECTORS && !Touched(h, position, |data|, s) ==> d'[s] == d[s]
  }

  // ---- the disk ----

  class SynchDisk {
    const sectors: array<Sector>

    ghost predicate Valid() {
      sectors.Length == NUM_SECTORS
    }

    constructor ()
      ensures Valid() && fresh(sectors)
    {
      sectors := new Sector[NUM_SECTORS];
    }

    method ReadSector(sectorNumber: nat) returns (data: Sector)
      requires Valid() && sectorNumber < NUM_SECTORS
      ensures data == sectors[sectorNumber]
    {
      data := sectors[sectorNumber];
    }

    method WriteSector(sectorNumber: nat, data: Sector)
      requires Valid() && sectorNumber < NUM_SECTORS
      modifies sectors
      ensures sectors[..] == old(sectors[..])[sectorNumber := data]
    {
      sectors[sectorNumber] := data;
    }
  }

  // ---- allocation ----

  /** The first `n` clear bits, in order, and the map with them set. */
  function TakeClear(bits: seq<bool>, n: nat): (r: (seq<nat>, seq<bool>))
    requires CountClear(bits, |bits|) >= n
    ensures |r.0| == n && |r.1| == |bits|
    decreases n
  {
    if n == 0 then ([], bits)
    else
      PositiveCountHasClear(bits, |bits|);
      var i := FirstClear(bits);
      CountAfterMark(bits, i, |bits|);
      var (taken, after) := TakeClear(bits[i := true], n - 1);
      ([i] + taken, after)
  }

  /** The sectors taken were clear, are distinct, and are exactly the ones the new map adds. */
  lemma {:induction false} TakeClearTakesClear(bits: seq<bool>, n: nat)
    requires CountClear(bits, |bits|) >= n
    ensures var (taken, after) := TakeClear(bits, n);
            && (forall k :: 0 <= k < n ==> taken[k] < |bits| && !bits[taken[k]])
            && (forall j, k :: 0 <= j < k < n ==> taken[j] != taken[k])
            && (forall b :: 0 <= b < |bits| ==> (after[b] <==> bits[b] || b in taken))
    decreases n
  {
    if n > 0 {
      PositiveCountHasClear(bits, |bits|);
      var i := FirstClear(bits);
      CountAfterMark(bits, i, |bits|);
      TakeClearTakesClear(bits[i := true], n - 1);
    }
  }

  lemma FirstTaken(bits: seq<bool>, n: nat) returns (i: nat, rest: seq<nat>)
    requires n > 0 && CountClear(bits, |bits|) >= n
    ensures i < |bits| && !bits[i] && forall k :: 0 <= k < i ==> bits[k]
    ensures CountClear(bits[i := true], |bits|) >= n - 1 && rest == TakeClear(bits[i := true], n - 1).0
    ensures TakeClear(bits, n).0 == [i] + rest
  {
    PositiveCountHasClear(bits, |bits|);
    i := FirstClear(bits);
    CountAfterMark(bits, i, |bits|);
    rest := TakeClear(bits[i := true], n - 1).0;
  }

  lemma {:induction false} TakenRises(bits: seq<bool>, n: nat, j: nat, k: nat)
    requires CountClear(bits, |bits|) >= n && j < k < n
    ensures TakeClear(bits, n).0[j] < TakeClear(bits, n).0[k]
    decreases n
  {
    var i, rest := FirstTaken(bits, n);
    TakeClearTakesClear(bits[i := true], n - 1);
    if j == 0 {
      assert !bits[i := true][rest[k - 1]];
    } else {
      TakenRises(bits[i := true], n - 1, j - 1, k - 1);
    }
  }

  lemma {:induction false} LeftIsBeyond(bits: seq<bool>, n: nat, b: nat, k: nat)
    requires CountClear(bits, |bits|) >= n && b < |bits| && !bits[b] && b !in TakeClear(bits, n).0 && k < n
    ensures TakeClear(bits, n).0[k] < b
    decreases n
  {
    var i, rest := FirstTaken(bits, n);
    assert ([i] + rest)[0] == i && ([i] + rest)[1..] == rest;
    if k > 0 {
      LeftIsBeyond(bits[i := true], n - 1, b, k - 1);
    }
  }

  /** They are the first clear sectors, in order: every clear sector not taken comes after them. */
  lemma {:induction false} TakeClearInOrder(bits: seq<bool>, n: nat)
    requires CountClear(bits, |bits|) >= n
    ensures var taken := TakeClear(bits, n).0;
            && (forall j, k :: 0 <= j < k < n ==> taken[j] < taken[k])
            && (forall b, k :: 0 <= b < |bits| && !bits[b] && b !in taken && 0 <= k < n ==> taken[k] < b)
  {
    var taken := TakeClear(bits, n).0;
    forall j, k | 0 <= j < k < n ensures taken[j] < taken[k] {
      TakenRises(bits, n, j, k);
    }
    forall b, k | 0 <= b < |bits| && !bits[b] && b !in taken && 0 <= k < n ensures taken[k] < b {
      LeftIsBeyond(bits, n, b, k);
    }
  }

  /** Taking one more sector takes the first one still clear. */
  lemma {:induction false} TakeClearOneMore(bits: seq<bool>, n: nat)
    requires CountClear(bits, |bits|) >= n + 1
    ensures var (taken, after) := TakeClear(bits, n);
            var i := FirstClear(after);
            && i != -1 && CountClear(after, |bits|) == CountClear(bits, |bits|) - n
            && TakeClear(bits, n + 1) == (taken + [i], after[i := true])
    decreases n
  {
    PositiveCountHasClear(bits, |bits|);
    var i := FirstClear(bits);
    CountAfterMark(bits, i, |bits|);
    assert TakeClear(bits[i := true], 0) == ([], bits[i := true]);
    if n > 0 {
      TakeClearOneMore(bits[i := true], n - 1);
      var (taken, after) := TakeClear(bits[i := true], n - 1);
      var next := FirstClear(after);
      assert [i] + (taken + [next]) == ([i] + taken) + [next];
    } else {
      var (taken, after) := TakeClear(bits[i := true], 0);
      assert [i] + taken == taken + [i];
    }
  }

  lemma InDataSet(h: Header, k: nat)
    requires h.numSectors <= |h.dataSectors|
    ensures k in DataSet(h) <==> k in h.dataSectors[..h.numSectors]
  {
    if k in DataSet(h) {
      var i :| 0 <= i < h.numSectors && h.dataSectors[i] == k;
      assert h.dataSectors[..h.numSectors][i] == k;
    }
    if k in h.dataSectors[..h.numSectors] {
      var i :| 0 <= i < h.numSectors && h.dataSectors[..h.numSectors][i] == k;
      assert h.dataSectors[i] == k;
    }
  }

  class FileHeader {
    var numBytes: Word
    var numSectors: Word
    var dataSectors: seq<Word>

    ghost function Value(): Header
      reads this
    {
      Header(numBytes, numSectors, dataSectors)
    }

    /** A new header is uninitialised memory. */
    constructor (garbage: Header)
      requires |garbage.dataSectors| == NUM_DIRECT
      ensures Value() == garbage
    {
      numBytes, numSectors, dataSectors := garbage.numBytes, garbage.numSectors, garbage.dataSectors;
    }

    /** Takes the sectors a file of `fileSize` bytes needs, or fails and takes none. Only a size that passes the test
        of the clear sectors must fit the header, which the source does not check. */
    method Allocate(freeMap: BitMap, fileSize: Word) returns (ok: bool)
      requires freeMap.Valid() && freeMap.numBits == NUM_SECTORS && freeMap.words != this as object
      requires |dataSectors| == NUM_DIRECT
      requires fileSize <= MAX_FILE_SIZE || CountClear(freeMap.Bits(), NUM_SECTORS) < DivRoundUp(fileSize, SECTOR_SIZE)
      modifies this, freeMap.words
      ensures ok <==> CountClear(old(freeMap.Bits()), NUM_SECTORS) >= DivRoundUp(fileSize, SECTOR_SIZE)
      ensures |dataSectors| == NUM_DIRECT
      ensures ok ==>
        var n := DivRoundUp(fileSize, SECTOR_SIZE);
        && numBytes == fileSize && numSectors == n
        && (dataSectors[..n], freeMap.Bits()) == TakeClear(old(freeMap.Bits()), n)
      ensures !ok ==> freeMap.Bits() == old(freeMap.Bits())
    {
      ghost var bits := freeMap.Bits();
      numBytes := fileSize;
      numSectors := DivRoundUp(fileSize, SECTOR_SIZE);
      var clear := freeMap.NumClear();
      if clear < numSectors {
        return false;
      }
      FillSectors(freeMap);
      return true;
    }

    /** The loop of Allocate. */
    method FillSectors(freeMap: BitMap)
      requires freeMap.Valid() && freeMap.numBits == NUM_SECTORS && freeMap.words != this as object
      requires |dataSectors| == NUM_DIRECT && numSectors <= NUM_DIRECT
      requires CountClear(freeMap.Bits(), NUM_SECTORS) >= numSectors
      modifies this`dataSectors, freeMap.words
      ensures |dataSectors| == NUM_DIRECT
      ensures (dataSectors[..numSectors], freeMap.Bits()) == TakeClear(old(freeMap.Bits()), numSectors)
    {
      ghost var bits := freeMap.Bits();
      var i := 0;
      while i < numSectors
        invariant 0 <= i <= numSectors && |dataSectors| == NUM_DIRECT
        invariant (dataSectors[..i], freeMap.Bits()) == TakeClear(bits, i)
      {
        TakeClearOneMore(bits, i);
        var sector := freeMap.Find();
        dataSectors := dataSectors[i := sector];
        i := i + 1;
        assert dataSectors[..i] == TakeClear(bits, i).0;
      }
    }

    /** Gives the data sectors back. Every one of them must be marked: the assertion below never fires. */
    method Deallocate(freeMap: BitMap)
      requires freeMap.Valid() && freeMap.numBits == NUM_SECTORS && HeaderOK(Value())
      requires forall i :: 0 <= i < numSectors ==> freeMap.Bits()[dataSectors[i]]
      modifies freeMap.words
      ensures forall b :: 0 <= b < NUM_SECTORS ==>
        (freeMap.Bits()[b] <==> old(freeMap.Bits())[b] && b !in DataSet(Value()))
    {
      var i := 0;
      while i < numSectors
        invariant 0 <= i <= numSectors
        invariant forall b :: 0 <= b < NUM_SECTORS ==>
          (freeMap.Bits()[b] <==> old(freeMap.Bits())[b] && forall j :: 0 <= j < i ==> dataSectors[j] != b)
      {
        var marked := freeMap.Test(dataSectors[i]);
        assert marked;
        freeMap.Clear(dataSectors[i]);
        i := i + 1;
      }
    }

    method FetchFrom(disk: SynchDisk, sector: nat)
      requires disk.Valid() && sector < NUM_SECTORS
      modifies this
      ensures Value() == DecodeHeader(disk.sectors[sector])
    {
      var data := disk.ReadSector(sector);
      var h := DecodeHeader(data);
      numBytes, numSectors, dataSectors := h.numBytes, h.numSectors, h.dataSectors;
    }

    method WriteBack(disk: SynchDisk, sector: nat)
      requires disk.Valid() && sector < NUM_SECTORS && |dataSectors| == NUM_DIRECT
      modifies disk.sectors
      ensures disk.sectors[..] == old(disk.sectors[..])[sector := EncodeHeader(Value())]
    {
      disk.WriteSector(sector, EncodeHeader(Header(numBytes, numSectors, dataSectors)));
    }

    function ByteToSector(offset: nat): (s: nat)
      requires offset / SECTOR_SIZE < |dataSectors|
      reads this
    {
      dataSectors[offset / SECTOR_SIZE]
    }

    function FileLength(): (n: nat)
      reads this
    {
      numBytes
    }
  }
}

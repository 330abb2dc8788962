/** The file system on disk: what must hold of the sectors, what the disk means as a map from names to
    contents, and what Create, Remove and file writes do to both. */
module FileSystemModel {
  import opened Bytes
  import opened BitMaps
  import opened DiskFiles
  import opened OpenFiles
  import opened Directories

  const FREE_MAP_SECTOR := 0
  const DIRECTORY_SECTOR := 1
  const FREE_MAP_FILE_SIZE := 128
  /** The bitmap file, the directory file, and one object per directory entry. */
  const NUM_OBJECTS := 2 + NUM_DIR_ENTRIES

  type Disk = seq<Sector>

  function HeaderAt(d: Disk, s: nat): (h: Header)
    requires s < |d|
    ensures |h.dataSectors| == NUM_DIRECT
  {
    DecodeHeader(d[s])
  }

  ghost predicate SystemFilesOK(d: Disk) {
    && |d| == NUM_SECTORS
    && HeaderOK(HeaderAt(d, FREE_MAP_SECTOR)) && HeaderAt(d, FREE_MAP_SECTOR).numBytes == FREE_MAP_FILE_SIZE
    && HeaderOK(HeaderAt(d, DIRECTORY_SECTOR)) && HeaderAt(d, DIRECTORY_SECTOR).numBytes == DIRECTORY_FILE_SIZE
  }

  /** The free map stored in the bitmap file: bit k is set when sector k is taken. */
  ghost function FreeMap(d: Disk): (bits: seq<bool>)
    requires SystemFilesOK(d)
    ensures |bits| == NUM_SECTORS
  {
    BitsOf(DecodeWords(FileBytes(d, HeaderAt(d, FREE_MAP_SECTOR))), NUM_SECTORS)
  }

  /** The directory stored in the directory file. */
  ghost function Dir(d: Disk): (t: Table)
    requires SystemFilesOK(d)
  {
    DecodeTable(FileBytes(d, HeaderAt(d, DIRECTORY_SECTOR)))
  }

  // ---- the disk invariant ----

  predicate Live(t: Table, o: nat)
    requires o < NUM_OBJECTS
  {
    o < 2 || t[o - 2].inUse
  }

  function HeaderSector(t: Table, o: nat): (s: nat)
    requires o < NUM_OBJECTS
  {
    if o < 2 then o else t[o - 2].sector
  }

  /** The header sector and the data sectors of the file whose header is in sector s. */
  ghost function Owned(d: Disk, s: nat): (r: set<int>)
    requires s < |d| && HeaderOK(HeaderAt(d, s))
  {
    {s as int} + DataSet(HeaderAt(d, s))
  }

  ghost predicate HeadersOK(d: Disk, t: Table) {
    forall o :: 0 <= o < NUM_OBJECTS && Live(t, o) ==>
      && HeaderSector(t, o) < |d|
      && HeaderOK(HeaderAt(d, HeaderSector(t, o)))
      && HeaderSector(t, o) !in DataSet(HeaderAt(d, HeaderSector(t, o)))
  }

  ghost predicate InFile(d: Disk, t: Table, o: nat, k: int)
    requires HeadersOK(d, t)
  {
    o < NUM_OBJECTS && Live(t, o) && k in Owned(d, HeaderSector(t, o))
  }

  ghost predicate Taken(d: Disk, t: Table, k: int)
    requires HeadersOK(d, t)
  {
    exists o :: 0 <= o < NUM_OBJECTS && InFile(d, t, o, k)
  }

  ghost predicate DistinctNames(t: Table) {
    forall i, j :: 0 <= i < j < NUM_DIR_ENTRIES && t[i].inUse && t[j].inUse ==> Key(t[i].name) != Key(t[j].name)
  }

  /** No sector is in two files; the set bits are exactly the sectors of the files; no name is listed twice. */
  ghost predicate Consistent(d: Disk, t: Table, bits: seq<bool>) {
    && |d| == |bits| == NUM_SECTORS
    && HeadersOK(d, t)
    && (forall o, o', k :: InFile(d, t, o, k) && InFile(d, t, o', k) ==> o == o')
    && (forall k :: 0 <= k < NUM_SECTORS ==> (bits[k] <==> Taken(d, t, k)))
    && DistinctNames(t)
  }

  /** The invariant of a formatted disk. */
  ghost predicate Inv(d: Disk) {
    SystemFilesOK(d) && Consistent(d, Dir(d), FreeMap(d))
  }

  // ---- the meaning of a disk ----

  type Files = map<seq<Byte>, seq<Byte>>

  ghost function EntryBytes(d: Disk, i: nat): (r: seq<Byte>)
    requires Inv(d) && i < NUM_DIR_ENTRIES && Dir(d)[i].inUse
  {
    assert Live(Dir(d), i + 2);
    FileBytes(d, HeaderAt(d, Dir(d)[i].sector))
  }

  /** What each directory entry's file reads as. */
  ghost function Contents(d: Disk): (c: seq<seq<Byte>>)
    requires Inv(d)
    ensures |c| == NUM_DIR_ENTRIES
    ensures forall i :: 0 <= i < NUM_DIR_ENTRIES && Dir(d)[i].inUse ==> c[i] == EntryBytes(d, i)
  {
    seq(NUM_DIR_ENTRIES, i requires 0 <= i < NUM_DIR_ENTRIES => if Dir(d)[i].inUse then EntryBytes(d, i) else [])
  }

  ghost function NamedFiles(t: Table, contents: seq<seq<Byte>>): (m: Files)
    requires DistinctNames(t) && |contents| == NUM_DIR_ENTRIES
    ensures forall i :: 0 <= i < NUM_DIR_ENTRIES && t[i].inUse ==> Key(t[i].name) in m && m[Key(t[i].name)] == contents[i]
    ensures forall k :: k in m ==> exists i :: 0 <= i < NUM_DIR_ENTRIES && t[i].inUse && Key(t[i].name) == k
  {
    map i | 0 <= i < NUM_DIR_ENTRIES && t[i].inUse :: Key(t[i].name) := contents[i]
  }

  /** The files a disk holds: from names (nine characters at most) to byte sequences. */
  ghost function FilesOf(d: Disk): (m: Files)
    requires Inv(d)
  {
    NamedFiles(Dir(d), Contents(d))
  }

  ghost predicate SameOutside(d: Disk, d': Disk, changed: set<int>) {
    |d| == |d'| && forall s :: 0 <= s < |d| && s !in changed ==> d'[s] == d[s]
  }

  ghost function SystemData(d: Disk): (r: set<int>)
    requires SystemFilesOK(d)
  {
    DataSet(HeaderAt(d, FREE_MAP_SECTOR)) + DataSet(HeaderAt(d, DIRECTORY_SECTOR))
  }

  // ---- what the operations do ----

  predicate Allocates(bits: seq<bool>, size: nat, sector: int, h: Header, bits': seq<bool>)
    requires |bits| == NUM_SECTORS
  {
    var n := DivRoundUp(size, SECTOR_SIZE);
    && sector == FirstClear(bits) && sector != -1
    && CountClear(bits[sector := true], NUM_SECTORS) >= n
    && h.numBytes == size && h.numSectors == n && |h.dataSectors| == NUM_DIRECT && n <= NUM_DIRECT
    && (h.dataSectors[..n], bits') == TakeClear(bits[sector := true], n)
  }

  /** A Create that succeeds: a free entry names a new header in a free sector, the header lists free sectors,
      the stored map marks them all, and no other sector but the system files' data changes. */
  ghost predicate Creates(d: Disk, name: Name, size: nat, h: Header, d': Disk) {
    && SystemFilesOK(d) && SystemFilesOK(d') && size <= MAX_FILE_SIZE
    && IndexOf(Dir(d), name) == -1 && FreeIndex(Dir(d)) != -1
    && var sector := FirstClear(FreeMap(d));
       && Allocates(FreeMap(d), size, sector, h, FreeMap(d'))
       && Dir(d') == Added(Dir(d), FreeIndex(Dir(d)), name, sector)
       && HeaderAt(d', sector) == h
       && SameOutside(d, d', SystemData(d) + {sector})
  }

  /** A Remove that succeeds: the entry is unused, its sectors are free, nothing else but the system files' data changes. */
  ghost predicate Removes(d: Disk, name: Name, d': Disk) {
    && SystemFilesOK(d) && SystemFilesOK(d')
    && var i := IndexOf(Dir(d), name);
       && i != -1 && Dir(d)[i].sector < NUM_SECTORS && HeaderOK(HeaderAt(d, Dir(d)[i].sector))
       && Dir(d') == Dir(d)[i := Dir(d)[i].(inUse := false)]
       && (forall k :: 0 <= k < NUM_SECTORS ==> (FreeMap(d')[k] <==> FreeMap(d)[k] && k !in Owned(d, Dir(d)[i].sector)))
       && SameOutside(d, d', SystemData(d))
  }

  // ---- the frame of a system update ----

  lemma OwnedIsInFile(d: Disk, t: Table, o: nat, k: int)
    requires HeadersOK(d, t) && o < NUM_OBJECTS && Live(t, o) && k in Owned(d, HeaderSector(t, o))
    ensures InFile(d, t, o, k)
  {
  }

  /** Sectors of user files, and every header, are outside the system files' data. */
  lemma SystemDataIsPrivate(d: Disk, o: nat, k: int)
    requires Inv(d) && InFile(d, Dir(d), o, k) && (o >= 2 || k == o)
    ensures k !in SystemData(d)
  {
    var t := Dir(d);
    if k in DataSet(HeaderAt(d, 0)) { assert InFile(d, t, 0, k); }
    if k in DataSet(HeaderAt(d, 1)) { assert InFile(d, t, 1, k); }
    assert Live(t, 0) && Live(t, 1);
  }

  /** A file none of whose sectors changed still reads the same. */
  lemma FileUnchanged(d: Disk, d': Disk, s: nat, changed: set<int>)
    requires |d| == NUM_SECTORS && s < NUM_SECTORS && HeaderOK(HeaderAt(d, s))
    requires SameOutside(d, d', changed) && Owned(d, s) !! changed
    ensures d'[s] == d[s] && FileBytes(d', HeaderAt(d, s)) == FileBytes(d, HeaderAt(d, s))
  {
    assert s in Owned(d, s);
    var h := HeaderAt(d, s);
    SectorsFit(h);
    forall k | 0 <= k < h.numBytes ensures FileByte(d', h, k) == FileByte(d, h, k) {
      assert h.dataSectors[k / SECTOR_SIZE] in DataSet(h);
    }
  }
}

/** The file system: format or mount a disk, Create, Open and Remove, with the map and the directory kept in files
    of the disk they describe; and runs of these operations. */
module FileSystems {
  import opened Bytes
  import opened BitMaps
  import opened DiskFiles
  import opened OpenFiles
  import opened Directories
  import opened FileSystemModel
  import opened FileSystemProofs
  import opened FileSystemCapacity

  // ---- writing the system files ----

  /** The two system files share no sector with each other or with their headers. */
  ghost predicate Apart(d: Disk) {
    && SystemFilesOK(d)
    && DataSet(HeaderAt(d, FREE_MAP_SECTOR)) !! DataSet(HeaderAt(d, DIRECTORY_SECTOR))
    && SystemData(d) !! {FREE_MAP_SECTOR, DIRECTORY_SECTOR}
  }

  lemma InvApart(d: Disk)
    requires Inv(d)
    ensures Apart(d)
  {
    var t := Dir(d);
    assert Live(t, 0) && Live(t, 1);
    assert InFile(d, t, 0, 0) && InFile(d, t, 1, 1);
    forall k | k in SystemData(d) ensures k != 0 && k != 1 {
      if k in DataSet(HeaderAt(d, 0)) { assert InFile(d, t, 0, k); }
      if k in DataSet(HeaderAt(d, 1)) { assert InFile(d, t, 1, k); }
    }
    forall k | k in DataSet(HeaderAt(d, 0)) ensures k !in DataSet(HeaderAt(d, 1)) {
      assert InFile(d, t, 0, k);
      if k in DataSet(HeaderAt(d, 1)) { assert InFile(d, t, 1, k); }
    }
  }

  /** A sector written outside the system files and their headers changes neither the map nor the directory. */
  lemma FreeSectorWritten(d: Disk, s: nat, data: Sector)
    requires Apart(d) && 2 <= s < NUM_SECTORS && s !in SystemData(d)
    ensures Apart(d[s := data]) && Dir(d[s := data]) == Dir(d) && FreeMap(d[s := data]) == FreeMap(d)
    ensures SystemData(d[s := data]) == SystemData(d)
  {
    FileUnchanged(d, d[s := data], 0, {s as int});
    FileUnchanged(d, d[s := data], 1, {s as int});
  }

  lemma WholeFileWritten(d: Disk, h: Header, data: seq<Byte>, d': Disk)
    requires Written(d, h, 0, data, d') && data != [] && |data| == h.numBytes
    ensures FileBytes(d', h) == data && SameOutside(d, d', DataSet(h))
  {
    forall s | 0 <= s < NUM_SECTORS && s !in DataSet(h) ensures d'[s] == d[s] {
      TouchedInside(h, 0, |data|, s);
    }
  }

  /** Writing the directory file sets the stored directory and leaves the stored map as it was. */
  lemma {:induction false} DirectoryWritten(d: Disk, t: Table, d': Disk)
    requires Apart(d) && Written(d, HeaderAt(d, DIRECTORY_SECTOR), 0, EncodeTable(t), d')
    ensures Apart(d') && Dir(d') == t && FreeMap(d') == FreeMap(d) && SystemData(d') == SystemData(d)
    ensures SameOutside(d, d', SystemData(d)) && d'[0] == d[0] && d'[1] == d[1]
  {
    var h := HeaderAt(d, DIRECTORY_SECTOR);
    assert EncodeTable(t) != [];
    WholeFileWritten(d, h, EncodeTable(t), d');
    TableRoundTrip(t);
    OtherFileUntouched(d, h, 0, EncodeTable(t), d', HeaderAt(d, FREE_MAP_SECTOR));
  }

  /** Writing the bitmap file sets the stored map and leaves the stored directory as it was. */
  lemma {:induction false} MapWritten(d: Disk, words: seq<Word>, d': Disk)
    requires Apart(d) && |words| == DivRoundUp(NUM_SECTORS, BITS_IN_WORD)
    requires Written(d, HeaderAt(d, FREE_MAP_SECTOR), 0, EncodeWords(words), d')
    ensures Apart(d') && Dir(d') == Dir(d) && FreeMap(d') == BitsOf(words, NUM_SECTORS) && SystemData(d') == SystemData(d)
    ensures SameOutside(d, d', SystemData(d)) && d'[0] == d[0] && d'[1] == d[1]
  {
    var h := HeaderAt(d, FREE_MAP_SECTOR);
    assert EncodeWords(words) != [];
    WholeFileWritten(d, h, EncodeWords(words), d');
    WordsRoundTrip(words);
    OtherFileUntouched(d, h, 0, EncodeWords(words), d', HeaderAt(d, DIRECTORY_SECTOR));
  }

  /** BitMap::FetchFrom */
  method FetchMap(bitMap: BitMap, file: OpenFile)
    requires bitMap.Valid() && bitMap.numBits == NUM_SECTORS && file.Valid() && file.hdr.numBytes == FREE_MAP_FILE_SIZE
    requires file.disk.sectors != bitMap.words as object && file.hdr != bitMap.words as object
    modifies bitMap.words
    ensures bitMap.Bits() == BitsOf(DecodeWords(file.Content()), NUM_SECTORS)
  {
    var buffer := new Byte[FREE_MAP_FILE_SIZE];
    var n := file.ReadAt(buffer, 0, FREE_MAP_FILE_SIZE, 0);
    assert buffer[..] == file.Content();
    var words := DecodeWords(buffer[..]);
    ghost var content := file.Content();
    var i := 0;
    while i < bitMap.words.Length
      invariant 0 <= i <= bitMap.words.Length
      invariant forall k :: 0 <= k < i ==> bitMap.words[k] == words[k]
      modifies bitMap.words
    {
      bitMap.words[i] := words[i];
      i := i + 1;
    }
    assert bitMap.words[..] == words;
    assert file.Content() == content;
  }

  /** BitMap::WriteBack */
  method WriteBackMap(bitMap: BitMap, file: OpenFile)
    requires bitMap.Valid() && bitMap.numBits == NUM_SECTORS && file.Valid() && file.hdr.numBytes == FREE_MAP_FILE_SIZE
    requires file.disk.sectors != bitMap.words as object
    modifies file.disk.sectors
    ensures Written(old(file.disk.sectors[..]), file.hdr.Value(), 0, EncodeWords(bitMap.words[..]), file.disk.sectors[..])
  {
    var data := EncodeWords(bitMap.words[..]);
    var n := file.WriteAt(data, |data|, 0);
    assert data[..n] == data;
  }

  // ---- formatting ----

  lemma {:induction false} AllClear(bits: seq<bool>, n: nat)
    requires n <= |bits| && forall k :: 0 <= k < n ==> !bits[k]
    ensures CountClear(bits, n) == n
    decreases n
  {
    if n > 0 {
      AllClear(bits, n - 1);
    }
  }

  ghost predicate FirstMarked(bits: seq<bool>, n: nat) {
    |bits| == NUM_SECTORS && forall k :: 0 <= k < NUM_SECTORS ==> (bits[k] <==> k < n)
  }

  /** From a map with exactly its first `from` bits set, allocation takes the next sectors in order. */
  lemma {:induction false} TakesNext(bits: seq<bool>, from: nat, n: nat)
    requires FirstMarked(bits, from) && from + n <= NUM_SECTORS && CountClear(bits, NUM_SECTORS) == NUM_SECTORS - from
    ensures var (taken, after) := TakeClear(bits, n);
            && FirstMarked(after, from + n) && CountClear(after, NUM_SECTORS) == NUM_SECTORS - from - n
            && forall i :: 0 <= i < n ==> taken[i] == from + i
    decreases n
  {
    if n > 0 {
      CountAfterMark(bits, from, NUM_SECTORS);
      assert FirstClear(bits) == from;
      TakesNext(bits[from := true], from + 1, n - 1);
    }
  }

  lemma FormattedHeader(h: Header, first: nat)
    requires |h.dataSectors| == NUM_DIRECT && h.numBytes <= MAX_FILE_SIZE
    requires h.numSectors == DivRoundUp(h.numBytes, SECTOR_SIZE) && first + h.numSectors <= NUM_SECTORS
    requires forall i :: 0 <= i < h.numSectors ==> h.dataSectors[i] == first + i
    ensures HeaderOK(h) && forall k :: k in DataSet(h) <==> first <= k < first + h.numSectors
  {
    forall k | first <= k < first + h.numSectors ensures k in DataSet(h) {
      assert h.dataSectors[k - first] == k;
    }
  }

  /** The system files' headers after a format: sector 2 for the map; sectors 3 and 4 for the directory. */
  ghost predicate FreshHeaders(mapHdr: Header, dirHdr: Header) {
    && HeaderOK(mapHdr) && mapHdr.numBytes == FREE_MAP_FILE_SIZE && (forall k :: k in DataSet(mapHdr) <==> k == 2)
    && HeaderOK(dirHdr) && dirHdr.numBytes == DIRECTORY_FILE_SIZE && (forall k :: k in DataSet(dirHdr) <==> 3 <= k < 5)
  }

  lemma FormattedOwners(d: Disk)
    requires SystemFilesOK(d) && FreshHeaders(HeaderAt(d, 0), HeaderAt(d, 1))
    requires forall i :: 0 <= i < NUM_DIR_ENTRIES ==> !Dir(d)[i].inUse
    ensures HeadersOK(d, Dir(d))
    ensures forall o, k :: InFile(d, Dir(d), o, k) <==> (o == 0 && (k == 0 || k == 2)) || (o == 1 && (k == 1 || 3 <= k < 5))
  {
  }

  /** A disk whose stored map has the first five bits set and whose stored directory is empty holds no file. */
  lemma FormattedIsEmpty(d: Disk)
    requires SystemFilesOK(d) && FreshHeaders(HeaderAt(d, 0), HeaderAt(d, 1)) && FirstMarked(FreeMap(d), 5)
    requires forall i :: 0 <= i < NUM_DIR_ENTRIES ==> !Dir(d)[i].inUse
    ensures Inv(d) && FilesOf(d) == map[]
  {
    var t := Dir(d);
    FormattedOwners(d);
    forall k | 0 <= k < NUM_SECTORS ensures FreeMap(d)[k] <==> Taken(d, t, k) {
      assert k == 0 || k == 2 ==> InFile(d, t, 0, k);
      assert k == 1 || 3 <= k < 5 ==> InFile(d, t, 1, k);
    }
  }

  /** Marks the reserved sectors, allocates both system files and writes their headers. */
  method FormatHeaders(disk: SynchDisk) returns (freeMap: BitMap)
    requires disk.Valid()
    modifies disk.sectors
    ensures freeMap.Valid() && freeMap.numBits == NUM_SECTORS && fresh(freeMap.words)
    ensures FirstMarked(freeMap.Bits(), 5)
    ensures FreshHeaders(HeaderAt(disk.sectors[..], 0), HeaderAt(disk.sectors[..], 1))
  {
    freeMap := MarkReserved();
    var mapHdr := NewFileHeader();
    var dirHdr := NewFileHeader();
    AllocateFormatted(freeMap, mapHdr, FREE_MAP_FILE_SIZE, 2);
    AllocateFormatted(freeMap, dirHdr, DIRECTORY_FILE_SIZE, 3);
    HeaderRoundTrip(mapHdr.Value());
    HeaderRoundTrip(dirHdr.Value());
    mapHdr.WriteBack(disk, FREE_MAP_SECTOR);
    dirHdr.WriteBack(disk, DIRECTORY_SECTOR);
  }

  /** The new map with the two header sectors marked. */
  method MarkReserved() returns (freeMap: BitMap)
    ensures freeMap.Valid() && freeMap.numBits == NUM_SECTORS && fresh(freeMap.words)
    ensures FirstMarked(freeMap.Bits(), 2) && CountClear(freeMap.Bits(), NUM_SECTORS) == NUM_SECTORS - 2
  {
    freeMap := new BitMap(NUM_SECTORS);
    AllClear(freeMap.Bits(), NUM_SECTORS);
    CountAfterMark(freeMap.Bits(), FREE_MAP_SECTOR, NUM_SECTORS);
    freeMap.Mark(FREE_MAP_SECTOR);
    CountAfterMark(freeMap.Bits(), DIRECTORY_SECTOR, NUM_SECTORS);
    freeMap.Mark(DIRECTORY_SECTOR);
  }

  /** Uninitialised memory for a header. */
  method NewFileHeader() returns (hdr: FileHeader)
    ensures fresh(hdr) && |hdr.dataSectors| == NUM_DIRECT
  {
    var numBytes: Word := *;
    var sectors: seq<Word> := *;
    hdr := new FileHeader(Header(numBytes, 0, if |sectors| == NUM_DIRECT then sectors else seq<Word>(NUM_DIRECT, _ => 0)));
  }

  /** An allocation of the format: it succeeds, and takes the sectors from `first` on. */
  method AllocateFormatted(freeMap: BitMap, hdr: FileHeader, size: nat, first: nat)
    requires freeMap.Valid() && freeMap.numBits == NUM_SECTORS && freeMap.words != hdr as object
    requires size <= MAX_FILE_SIZE && first < 100 && |hdr.dataSectors| == NUM_DIRECT
    requires FirstMarked(freeMap.Bits(), first) && CountClear(freeMap.Bits(), NUM_SECTORS) == NUM_SECTORS - first
    modifies freeMap.words, hdr
    ensures var n := DivRoundUp(size, SECTOR_SIZE);
            && FirstMarked(freeMap.Bits(), first + n) && CountClear(freeMap.Bits(), NUM_SECTORS) == NUM_SECTORS - first - n
            && HeaderOK(hdr.Value()) && hdr.numBytes == size
            && forall k :: k in DataSet(hdr.Value()) <==> first <= k < first + n
  {
    ghost var bits, n := freeMap.Bits(), DivRoundUp(size, SECTOR_SIZE);
    TakesNext(bits, first, n);
    var ok := hdr.Allocate(freeMap, size);
    assert ok;
    assert forall i :: 0 <= i < n ==> hdr.dataSectors[i] == hdr.dataSectors[..n][i];
    FormattedHeader(hdr.Value(), first);
  }

  /** Writes the initial headers, map and directory, and leaves the two system files open. */
  method Format(disk: SynchDisk) returns (mapFile: OpenFile, dirFile: OpenFile)
    requires disk.Valid()
    modifies disk.sectors
    ensures Inv(disk.sectors[..]) && FirstMarked(FreeMap(disk.sectors[..]), 5) && FilesOf(disk.sectors[..]) == map[]
    ensures mapFile.Valid() && mapFile.disk == disk && mapFile.hdr.Value() == HeaderAt(disk.sectors[..], FREE_MAP_SECTOR)
    ensures dirFile.Valid() && dirFile.disk == disk && dirFile.hdr.Value() == HeaderAt(disk.sectors[..], DIRECTORY_SECTOR)
  {
    var freeMap := FormatHeaders(disk);
    ghost var d0 := disk.sectors[..];
    var garbage: Table := *;
    var directory := new Directory(garbage);
    mapFile := new OpenFile(disk, FREE_MAP_SECTOR);
    dirFile := new OpenFile(disk, DIRECTORY_SECTOR);
    WriteBackMap(freeMap, mapFile);
    ghost var d1 := disk.sectors[..];
    MapWritten(d0, freeMap.words[..], d1);
    directory.WriteBack(dirFile);
    DirectoryWritten(d1, directory.Entries(), disk.sectors[..]);
    FormattedIsEmpty(disk.sectors[..]);
  }

  class FileSystem {
    const disk: SynchDisk
    const freeMapFile: OpenFile
    const directoryFile: OpenFile

    /** The disk is consistent, and both open system files still hold the headers the disk has. */
    ghost predicate Valid()
      reads disk.sectors, freeMapFile.hdr, directoryFile.hdr
    {
      && disk.Valid() && freeMapFile.Valid() && directoryFile.Valid()
      && freeMapFile.disk == disk && directoryFile.disk == disk
      && Inv(disk.sectors[..])
      && freeMapFile.hdr.Value() == HeaderAt(disk.sectors[..], FREE_MAP_SECTOR)
      && directoryFile.hdr.Value() == HeaderAt(disk.sectors[..], DIRECTORY_SECTOR)
    }

    /** Formats whatever is on the disk, or mounts a disk that was formatted before. */
    constructor (d: SynchDisk, format: bool)
      requires d.Valid() && (!format ==> Inv(d.sectors[..]))
      modifies d.sectors
      ensures Valid() && disk == d
      ensures !format ==> d.sectors[..] == old(d.sectors[..])
      ensures format ==> FirstMarked(FreeMap(d.sectors[..]), 5) && FilesOf(d.sectors[..]) == map[]
    {
      var mapFile, dirFile;
      if format {
        mapFile, dirFile := Format(d);
      } else {
        mapFile := new OpenFile(d, FREE_MAP_SECTOR);
        dirFile := new OpenFile(d, DIRECTORY_SECTOR);
      }
      disk, freeMapFile, directoryFile := d, mapFile, dirFile;
    }

    method FetchDirectory() returns (directory: Directory)
      requires Valid()
      ensures directory.Valid() && fresh(directory.table) && directory.Entries() == Dir(disk.sectors[..])
    {
      var garbage: Table := *;
      directory := new Directory(garbage);
      directory.FetchFrom(directoryFile);
    }

    method FetchFreeMap() returns (freeMap: BitMap)
      requires Valid()
      ensures freeMap.Valid() && freeMap.numBits == NUM_SECTORS && fresh(freeMap.words)
      ensures freeMap.Bits() == FreeMap(disk.sectors[..])
    {
      freeMap := new BitMap(NUM_SECTORS);
      FetchMap(freeMap, freeMapFile);
    }

    /** Makes a file of a fixed size, whose bytes are whatever its sectors held. */
    method Create(name: Name, initialSize: Word) returns (success: bool)
      requires Valid()
      requires initialSize <= MAX_FILE_SIZE || !CanCreate(disk.sectors[..], name, initialSize)
      modifies disk.sectors
      ensures Valid()
      ensures success <==> CanCreate(old(disk.sectors[..]), name, initialSize)
      ensures !success ==> disk.sectors[..] == old(disk.sectors[..])
      ensures success ==> exists h :: Creates(old(disk.sectors[..]), name, initialSize, h, disk.sectors[..])
    {
      var entered, sector, directory, freeMap := EnterName(name);
      if !entered {
        return false;
      }
      success := MakeFile(name, initialSize, sector, directory, freeMap);
    }

    /** The first half of Create: the name is new, a sector takes the header, an entry takes the name. */
    method EnterName(name: Name) returns (entered: bool, sector: nat, directory: Directory, freeMap: BitMap)
      requires Valid()
      ensures var d := disk.sectors[..];
              entered <==> IndexOf(Dir(d), name) == -1 && FreeIndex(Dir(d)) != -1 && FirstClear(FreeMap(d)) != -1
      ensures directory.Valid() && fresh(directory.table)
      ensures freeMap.Valid() && freeMap.numBits == NUM_SECTORS && fresh(freeMap.words)
      ensures entered ==>
        var d := disk.sectors[..];
        && sector == FirstClear(FreeMap(d)) && freeMap.Bits() == FreeMap(d)[sector := true]
        && directory.Entries() == Added(Dir(d), FreeIndex(Dir(d)), name, sector)
    {
      directory := FetchDirectory();
      freeMap := FetchFreeMap();
      sector, entered := 0, false;
      var found := directory.Find(name);
      if found == -1 {
        entered, sector := TakeEntry(name, directory, freeMap);
      }
    }

    /** A sector for the header of a new name, and its entry. */
    method TakeEntry(name: Name, directory: Directory, freeMap: BitMap) returns (entered: bool, sector: nat)
      requires directory.Valid() && freeMap.Valid() && IndexOf(directory.Entries(), name) == -1
      requires freeMap.numBits == NUM_SECTORS && freeMap.words as object != directory.table
      modifies directory.table, freeMap.words
      ensures directory.Valid() && freeMap.Valid()
      ensures entered <==> FreeIndex(old(directory.Entries())) != -1 && FirstClear(old(freeMap.Bits())) != -1
      ensures entered ==>
        var t, bits := old(directory.Entries()), old(freeMap.Bits());
        && sector == FirstClear(bits) && freeMap.Bits() == bits[sector := true]
        && directory.Entries() == Added(t, FreeIndex(t), name, sector)
    {
      var free := freeMap.Find();
      if free == -1 {
        return false, 0;
      }
      sector := free;
      entered := directory.Add(name, sector);
    }

    /** The rest of Create, once the name is entered and the header's sector is marked. */
    method MakeFile(name: Name, initialSize: Word, sector: nat, directory: Directory, freeMap: BitMap) returns (success: bool)
      requires Valid() && (initialSize <= MAX_FILE_SIZE || !CanCreate(disk.sectors[..], name, initialSize))
      requires directory.Valid() && freeMap.Valid() && freeMap.numBits == NUM_SECTORS
      requires directory.table != disk.sectors as object && freeMap.words != disk.sectors as object
      requires IndexOf(Dir(disk.sectors[..]), name) == -1 && FreeIndex(Dir(disk.sectors[..])) != -1
      requires sector == FirstClear(FreeMap(disk.sectors[..])) && freeMap.Bits() == FreeMap(disk.sectors[..])[sector := true]
      requires directory.Entries() == Added(Dir(disk.sectors[..]), FreeIndex(Dir(disk.sectors[..])), name, sector)
      requires freeMap.words != freeMapFile.hdr as object && freeMap.words != directoryFile.hdr as object
      modifies disk.sectors, freeMap.words
      ensures Valid()
      ensures success <==> CanCreate(old(disk.sectors[..]), name, initialSize)
      ensures !success ==> disk.sectors[..] == old(disk.sectors[..])
      ensures success ==> exists h :: Creates(old(disk.sectors[..]), name, initialSize, h, disk.sectors[..])
    {
      ghost var d := disk.sectors[..];
      var hdr := NewFileHeader();
      success := hdr.Allocate(freeMap, initialSize);
      if success {
        FlushCreate(hdr, sector, directory, freeMap);
        assert Creates(d, name, initialSize, hdr.Value(), disk.sectors[..]);
        CreateKeepsInv(d, name, initialSize, hdr.Value(), disk.sectors[..]);
      }
    }

    /** Writes the new header, then the directory, then the free map. */
    method FlushCreate(hdr: FileHeader, sector: nat, directory: Directory, freeMap: BitMap)
      requires Valid() && directory.Valid() && freeMap.Valid() && freeMap.numBits == NUM_SECTORS
      requires directory.table != disk.sectors as object && freeMap.words != disk.sectors as object
      requires sector < NUM_SECTORS && |hdr.dataSectors| == NUM_DIRECT && !Taken(disk.sectors[..], Dir(disk.sectors[..]), sector)
      requires hdr as object != disk.sectors
      modifies disk.sectors
      ensures SystemFilesOK(disk.sectors[..])
      ensures Dir(disk.sectors[..]) == directory.Entries() && FreeMap(disk.sectors[..]) == freeMap.Bits()
      ensures HeaderAt(disk.sectors[..], sector) == hdr.Value()
      ensures SameOutside(old(disk.sectors[..]), disk.sectors[..], SystemData(old(disk.sectors[..])) + {sector as int})
      ensures disk.sectors[0] == old(disk.sectors[0]) && disk.sectors[1] == old(disk.sectors[1])
    {
      ghost var d0 := disk.sectors[..];
      InvApart(d0);
      FreeSector(d0, sector);
      FreeSectorWritten(d0, sector, EncodeHeader(hdr.Value()));
      hdr.WriteBack(disk, sector);
      ghost var d1 := disk.sectors[..];
      FlushTables(directory, freeMap);
      HeaderRoundTrip(hdr.Value());
      assert disk.sectors[..][sector] == d1[sector];
    }

    /** Writes the directory, then the free map. */
    method FlushTables(directory: Directory, freeMap: BitMap)
      requires disk.Valid() && freeMapFile.Valid() && directoryFile.Valid()
      requires freeMapFile.disk == disk && directoryFile.disk == disk && Apart(disk.sectors[..])
      requires freeMapFile.hdr.Value() == HeaderAt(disk.sectors[..], FREE_MAP_SECTOR)
      requires directoryFile.hdr.Value() == HeaderAt(disk.sectors[..], DIRECTORY_SECTOR)
      requires directory.Valid() && freeMap.Valid() && freeMap.numBits == NUM_SECTORS
      requires directory.table != disk.sectors as object && freeMap.words != disk.sectors as object
      modifies disk.sectors
      ensures SystemFilesOK(disk.sectors[..])
      ensures Dir(disk.sectors[..]) == directory.Entries() && FreeMap(disk.sectors[..]) == freeMap.Bits()
      ensures SameOutside(old(disk.sectors[..]), disk.sectors[..], SystemData(old(disk.sectors[..])))
      ensures disk.sectors[0] == old(disk.sectors[0]) && disk.sectors[1] == old(disk.sectors[1])
    {
      ghost var d1 := disk.sectors[..];
      directory.WriteBack(directoryFile);
      ghost var d2 := disk.sectors[..];
      DirectoryWritten(d1, directory.Entries(), d2);
      WriteBackMap(freeMap, freeMapFile);
      MapWritten(d2, freeMap.words[..], disk.sectors[..]);
    }

    /** Opens a listed file, or gives none. */
    method Open(name: Name) returns (file: OpenFile?)
      requires Valid()
      ensures file == null <==> Key(name) !in FilesOf(disk.sectors[..])
      ensures file != null ==> fresh(file.hdr) && file.disk == disk && file.Valid() && file.seekPosition == 0
                               && file.Content() == FilesOf(disk.sectors[..])[Key(name)]
    {
      ghost var d := disk.sectors[..];
      var directory := FetchDirectory();
      var sector := directory.Find(name);
      ListedIsNamed(d, name);
      file := null;
      if sector >= 0 {
        ListedSectorsAreMarked(d, IndexOf(Dir(d), name));
        file := new OpenFile(disk, sector);
      }
    }

    method Remove(name: Name) returns (success: bool)
      requires Valid()
      modifies disk.sectors
      ensures Valid()
      ensures success <==> Key(name) in FilesOf(old(disk.sectors[..]))
      ensures !success ==> disk.sectors[..] == old(disk.sectors[..])
      ensures success ==> Removes(old(disk.sectors[..]), name, disk.sectors[..])
    {
      ghost var d := disk.sectors[..];
      ListedIsNamed(d, name);
      var directory := FetchDirectory();
      var sector := directory.Find(name);
      if sector == -1 {
        return false;
      }
      var freeMap := FreeFile(sector, IndexOf(Dir(d), name));
      var removed := directory.Remove(name);
      FlushRemove(directory, freeMap);
      success := true;
      RemoveKeepsInv(d, name, disk.sectors[..]);
    }

    /** The free map without the sectors of the file that entry `i` lists. */
    method FreeFile(sector: nat, ghost i: nat) returns (freeMap: BitMap)
      requires Valid() && i < NUM_DIR_ENTRIES && Dir(disk.sectors[..])[i].inUse && Dir(disk.sectors[..])[i].sector == sector
      ensures freeMap.Valid() && freeMap.numBits == NUM_SECTORS && fresh(freeMap.words)
      ensures var d := disk.sectors[..];
              && sector < NUM_SECTORS && HeaderOK(HeaderAt(d, sector))
              && forall k :: 0 <= k < NUM_SECTORS ==> (freeMap.Bits()[k] <==> FreeMap(d)[k] && k !in Owned(d, sector))
    {
      ListedSectorsAreMarked(disk.sectors[..], i);
      var fileHdr := NewFileHeader();
      fileHdr.FetchFrom(disk, sector);
      freeMap := FetchFreeMap();
      InOwned(disk.sectors[..], sector, fileHdr.Value());
      fileHdr.Deallocate(freeMap);
      freeMap.Clear(sector);
    }

    /** Writes the free map, then the directory. */
    method FlushRemove(directory: Directory, freeMap: BitMap)
      requires Valid() && directory.Valid() && freeMap.Valid() && freeMap.numBits == NUM_SECTORS
      requires directory.table != disk.sectors as object && freeMap.words != disk.sectors as object
      modifies disk.sectors
      ensures SystemFilesOK(disk.sectors[..])
      ensures Dir(disk.sectors[..]) == directory.Entries() && FreeMap(disk.sectors[..]) == freeMap.Bits()
      ensures SameOutside(old(disk.sectors[..]), disk.sectors[..], SystemData(old(disk.sectors[..])))
      ensures disk.sectors[0] == old(disk.sectors[0]) && disk.sectors[1] == old(disk.sectors[1])
    {
      ghost var d0 := disk.sectors[..];
      InvApart(d0);
      WriteBackMap(freeMap, freeMapFile);
      ghost var d1 := disk.sectors[..];
      MapWritten(d0, freeMap.words[..], d1);
      directory.WriteBack(directoryFile);
      DirectoryWritten(d1, directory.Entries(), disk.sectors[..]);
    }
  }

  lemma InOwned(d: Disk, s: nat, h: Header)
    requires |d| == NUM_SECTORS && s < NUM_SECTORS && h == HeaderAt(d, s) && HeaderOK(h)
    ensures forall i :: 0 <= i < h.numSectors ==> h.dataSectors[i] in Owned(d, s)
    ensures forall k :: k in Owned(d, s) <==> k == s || k in DataSet(h)
  {
  }

  lemma SystemSectorsTaken(d: Disk, s: nat)
    requires Inv(d) && (s < 2 || s in SystemData(d))
    ensures Taken(d, Dir(d), s)
  {
    var t := Dir(d);
    assert Live(t, 0) && Live(t, 1);
    if s == 0 || s in DataSet(HeaderAt(d, 0)) { assert InFile(d, t, 0, s); }
    if s == 1 || s in DataSet(HeaderAt(d, 1)) { assert InFile(d, t, 1, s); }
  }

  /** A sector in no file is neither a reserved sector nor one of the system files'. */
  lemma FreeSector(d: Disk, s: nat)
    requires Inv(d) && s < NUM_SECTORS && !Taken(d, Dir(d), s)
    ensures s >= 2 && s !in SystemData(d)
  {
    if s < 2 || s in SystemData(d) {
      SystemSectorsTaken(d, s);
    }
  }

  /** The directory finds exactly the names of the files. */
  lemma {:induction false} ListedIsNamed(d: Disk, name: Name)
    requires Inv(d)
    ensures var i := IndexOf(Dir(d), name);
            && (i != -1 <==> Key(name) in FilesOf(d))
            && (i != -1 ==> FilesOf(d)[Key(name)] == EntryBytes(d, i))
  {
    var i := IndexOf(Dir(d), name);
    if i == -1 {
      NewNameUnlisted(d, name);
    } else {
      SameNameIsSameKey(Dir(d)[i].name, name, 0);
      assert Contents(d)[i] == EntryBytes(d, i);
    }
  }

  // ---- runs ----

  /** One operation on a mounted file system. Which header a Create writes depends on what memory held. */
  datatype Op = Create(name: Name, size: nat) | Remove(name: Name) | Write(name: Name, position: nat, data: seq<Byte>)

  /** What an operation may do to a consistent disk. */
  ghost predicate Steps(d: Disk, op: Op, d': Disk)
    requires Inv(d)
  {
    match op
    case Create(name, size) =>
      if CanCreate(d, name, size) then exists h :: Creates(d, name, size, h, d') else d' == d
    case Remove(name) =>
      if Key(name) in FilesOf(d) then Removes(d, name, d') else d' == d
    case Write(name, position, data) =>
      var i := IndexOf(Dir(d), name);
      i != -1 && Dir(d)[i].sector < NUM_SECTORS && Written(d, HeaderAt(d, Dir(d)[i].sector), position, data, d')
  }

  /** What it does to the map of files: the specification of the file system. */
  ghost predicate MapSteps(m: Files, op: Op, m': Files) {
    match op
    case Create(name, size) =>
      if HasRoom(m, name, size) then exists bytes :: |bytes| == size && m' == m[Key(name) := bytes] else m' == m
    case Remove(name) =>
      m' == m - {Key(name)}
    case Write(name, position, data) =>
      && Key(name) in m
      && if data == [] then m' == m
         else position + |data| <= |m[Key(name)]| && m' == m[Key(name) := Overwrite(m[Key(name)], position, data)]
  }

  lemma CreateRefinesMap(d: Disk, name: Name, size: nat, d': Disk)
    requires Inv(d) && Steps(d, Create(name, size), d')
    ensures Inv(d') && MapSteps(FilesOf(d), Create(name, size), FilesOf(d'))
  {
    CanCreateIffRoom(d, name, size);
    if CanCreate(d, name, size) {
      var h :| Creates(d, name, size, h, d');
      CreateAddsOneFile(d, name, size, h, d');
    }
  }

  lemma RemoveRefinesMap(d: Disk, name: Name, d': Disk)
    requires Inv(d) && Steps(d, Remove(name), d')
    ensures Inv(d') && MapSteps(FilesOf(d), Remove(name), FilesOf(d'))
  {
    if Key(name) in FilesOf(d) {
      RemoveDeletesOneFile(d, name, d');
    } else {
      KeyRemoved(FilesOf(d), FilesOf(d), Key(name));
    }
  }

  lemma WriteRefinesMap(d: Disk, name: Name, position: nat, data: seq<Byte>, d': Disk)
    requires Inv(d) && Steps(d, Write(name, position, data), d')
    ensures Inv(d') && MapSteps(FilesOf(d), Write(name, position, data), FilesOf(d'))
  {
    ListedIsNamed(d, name);
    if data != [] {
      var i := IndexOf(Dir(d), name);
      SameNameIsSameKey(Dir(d)[i].name, name, 0);
      WriteChangesOneFile(d, i, position, data, d');
    }
  }

  /** Every operation on a consistent disk leaves a consistent one, and acts on the map of files as the
      specification says. */
  lemma StepRefinesMap(d: Disk, op: Op, d': Disk)
    requires Inv(d) && Steps(d, op, d')
    ensures Inv(d') && MapSteps(FilesOf(d), op, FilesOf(d'))
  {
    match op
    case Create(name, size) => CreateRefinesMap(d, name, size, d');
    case Remove(name) => RemoveRefinesMap(d, name, d');
    case Write(name, position, data) => WriteRefinesMap(d, name, position, data, d');
  }

  /** Only the first disk is consistent by hypothesis: an operation on one that is not may do anything. */
  ghost predicate DiskRun(disks: seq<Disk>, ops: seq<Op>) {
    && |disks| == |ops| + 1 && Inv(disks[0])
    && forall i :: 0 <= i < |ops| && Inv(disks[i]) ==> Steps(disks[i], ops[i], disks[i + 1])
  }

  ghost predicate AllConsistent(disks: seq<Disk>) {
    forall d :: d in disks ==> Inv(d)
  }

  ghost function FilesAlong(disks: seq<Disk>): (files: seq<Files>)
    requires AllConsistent(disks)
    ensures |files| == |disks| && forall i :: 0 <= i < |files| ==> files[i] == FilesOf(disks[i])
  {
    seq(|disks|, i requires 0 <= i < |disks| => FilesOf(disks[i]))
  }

  /** By induction on the run: every disk of it is consistent. */
  lemma {:induction false} DiskStaysConsistent(disks: seq<Disk>, ops: seq<Op>, i: nat)
    requires DiskRun(disks, ops) && i < |disks|
    ensures Inv(disks[i])
    decreases i
  {
    if i > 0 {
      DiskStaysConsistent(disks, ops, i - 1);
      StepRefinesMap(disks[i - 1], ops[i - 1], disks[i]);
    }
  }

  /** Over every run from a consistent disk the disk stays consistent, and its files evolve as a map from names to
      bytes. */
  lemma FileSystemRefinesMap(disks: seq<Disk>, ops: seq<Op>)
    requires DiskRun(disks, ops)
    ensures AllConsistent(disks)
    ensures forall i :: 0 <= i < |ops| ==> MapSteps(FilesAlong(disks)[i], ops[i], FilesAlong(disks)[i + 1])
  {
    forall i | 0 <= i < |disks| ensures Inv(disks[i]) {
      DiskStaysConsistent(disks, ops, i);
    }
    forall i | 0 <= i < |ops| ensures MapSteps(FilesAlong(disks)[i], ops[i], FilesAlong(disks)[i + 1]) {
      StepRefinesMap(disks[i], ops[i], disks[i + 1]);
    }
  }
}

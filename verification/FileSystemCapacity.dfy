/** How much a disk can hold: the clear sectors counted from the files alone, and when a Create succeeds. */
module FileSystemCapacity {
  import opened Bytes
  import opened BitMaps
  import opened DiskFiles
  import opened Directories
  import opened FileSystemModel
  import opened FileSystemProofs

  /** The sectors of the two system files: both headers, one sector of bits, two of directory entries. */
  const SYSTEM_SECTORS := 5

  /** A header sector and the data sectors. */
  function FileSectors(size: nat): (n: nat) { 1 + DivRoundUp(size, SECTOR_SIZE) }

  ghost function SectorsUsed(m: Files): (n: nat)
    decreases |m|
  {
    if m == map[] then 0 else
      var k :| k in m;
      FileSectors(|m[k]|) + SectorsUsed(m - {k})
  }

  /** There is room for a new file: its name is new, a directory entry is left, and enough sectors are. */
  ghost predicate HasRoom(m: Files, name: Name, size: nat) {
    && Key(name) !in m && |m| < NUM_DIR_ENTRIES
    && SYSTEM_SECTORS + SectorsUsed(m) + FileSectors(size) <= NUM_SECTORS
  }

  lemma {:induction false} UsedWithout(m: Files, k: seq<Byte>)
    requires k in m
    ensures SectorsUsed(m) == FileSectors(|m[k]|) + SectorsUsed(m - {k})
    decreases |m|
  {
    var j :| j in m && SectorsUsed(m) == FileSectors(|m[j]|) + SectorsUsed(m - {j});
    if j != k {
      UsedWithout(m - {j}, k);
      UsedWithout(m - {k}, j);
      assert m - {j} - {k} == m - {k} - {j};
    }
  }

  lemma UsedWith(m: Files, k: seq<Byte>, bytes: seq<Byte>)
    requires k !in m
    ensures SectorsUsed(m[k := bytes]) == SectorsUsed(m) + FileSectors(|bytes|)
  {
    UsedWithout(m[k := bytes], k);
    assert m[k := bytes] - {k} == m;
  }

  // ---- the files of the first entries ----

  ghost function FilesUpTo(t: Table, contents: seq<seq<Byte>>, n: nat): (m: Files)
    requires |contents| == NUM_DIR_ENTRIES && n <= NUM_DIR_ENTRIES
  {
    if n == 0 then map[]
    else if t[n - 1].inUse then FilesUpTo(t, contents, n - 1)[Key(t[n - 1].name) := contents[n - 1]]
    else FilesUpTo(t, contents, n - 1)
  }

  lemma {:induction false} FilesUpToAre(t: Table, contents: seq<seq<Byte>>, n: nat)
    requires |contents| == NUM_DIR_ENTRIES && n <= NUM_DIR_ENTRIES && DistinctNames(t)
    ensures forall k :: k in FilesUpTo(t, contents, n) ==> exists i :: 0 <= i < n && t[i].inUse && Key(t[i].name) == k
    ensures forall i :: 0 <= i < n && t[i].inUse ==>
      Key(t[i].name) in FilesUpTo(t, contents, n) && FilesUpTo(t, contents, n)[Key(t[i].name)] == contents[i]
  {
    if n > 0 {
      FilesUpToAre(t, contents, n - 1);
    }
  }

  lemma AllFiles(d: Disk)
    requires Inv(d)
    ensures FilesUpTo(Dir(d), Contents(d), NUM_DIR_ENTRIES) == FilesOf(d)
  {
    FilesUpToAre(Dir(d), Contents(d), NUM_DIR_ENTRIES);
  }

  // ---- marked sectors ----

  /** The bits set among the first n. */
  ghost function Marked(bits: seq<bool>, n: nat): (r: set<int>)
    requires n <= |bits|
  {
    set k | 0 <= k < n && bits[k]
  }

  lemma {:induction false} MarkedAndClear(bits: seq<bool>, n: nat)
    requires n <= |bits|
    ensures |Marked(bits, n)| + CountClear(bits, n) == n
  {
    if n > 0 {
      MarkedAndClear(bits, n - 1);
      assert Marked(bits, n) == if bits[n - 1] then Marked(bits, n - 1) + {n - 1} else Marked(bits, n - 1);
    }
  }

  /** The sectors of the first n objects. */
  ghost function OwnedUpTo(d: Disk, t: Table, n: nat): (r: set<int>)
    requires HeadersOK(d, t) && n <= NUM_OBJECTS
  {
    if n == 0 then {}
    else if Live(t, n - 1) then OwnedUpTo(d, t, n - 1) + Owned(d, HeaderSector(t, n - 1))
    else OwnedUpTo(d, t, n - 1)
  }

  lemma {:induction false} InOwnedUpTo(d: Disk, t: Table, n: nat, k: int)
    requires HeadersOK(d, t) && n <= NUM_OBJECTS
    ensures k in OwnedUpTo(d, t, n) <==> exists o :: 0 <= o < n && InFile(d, t, o, k)
  {
    if n > 0 {
      InOwnedUpTo(d, t, n - 1, k);
      if k in OwnedUpTo(d, t, n) && k !in OwnedUpTo(d, t, n - 1) {
        assert InFile(d, t, n - 1, k);
      }
    }
  }

  lemma {:induction false} DistinctSectorsCounted(h: Header, n: nat)
    requires HeaderOK(h) && n <= h.numSectors
    ensures |set i | 0 <= i < n :: h.dataSectors[i]| == n
  {
    if n > 0 {
      DistinctSectorsCounted(h, n - 1);
      var before := set i | 0 <= i < n - 1 :: h.dataSectors[i];
      assert (set i | 0 <= i < n :: h.dataSectors[i]) == before + {h.dataSectors[n - 1]};
    }
  }

  lemma OwnedCounted(d: Disk, s: nat)
    requires s < |d| && HeaderOK(HeaderAt(d, s)) && s !in DataSet(HeaderAt(d, s))
    ensures |Owned(d, s)| == FileSectors(HeaderAt(d, s).numBytes)
  {
    var h := HeaderAt(d, s);
    DistinctSectorsCounted(h, h.numSectors);
  }

  lemma {:induction false} NextIsApart(d: Disk, t: Table, n: nat)
    requires HeadersOK(d, t) && n < NUM_OBJECTS && Live(t, n)
    requires forall o, o', k :: InFile(d, t, o, k) && InFile(d, t, o', k) ==> o == o'
    ensures OwnedUpTo(d, t, n) !! Owned(d, HeaderSector(t, n))
  {
    forall k | k in OwnedUpTo(d, t, n) ensures k !in Owned(d, HeaderSector(t, n)) {
      InOwnedUpTo(d, t, n, k);
      var o :| 0 <= o < n && InFile(d, t, o, k);
      assert !InFile(d, t, n, k);
    }
  }

  /** One more used entry owns its file's sectors, which no earlier object owns. */
  lemma {:induction false} NextEntryCounted(d: Disk, i: nat)
    requires Inv(d) && i < NUM_DIR_ENTRIES && Dir(d)[i].inUse
    ensures |OwnedUpTo(d, Dir(d), i + 3)| == |OwnedUpTo(d, Dir(d), i + 2)| + FileSectors(|Contents(d)[i]|)
  {
    var t := Dir(d);
    assert Live(t, i + 2);
    NextIsApart(d, t, i + 2);
    OwnedCounted(d, t[i].sector);
    assert Contents(d)[i] == EntryBytes(d, i);
  }

  lemma {:induction false} NextFileCounted(t: Table, contents: seq<seq<Byte>>, i: nat)
    requires |contents| == NUM_DIR_ENTRIES && i < NUM_DIR_ENTRIES && DistinctNames(t) && t[i].inUse
    ensures |FilesUpTo(t, contents, i + 1)| == |FilesUpTo(t, contents, i)| + 1
    ensures SectorsUsed(FilesUpTo(t, contents, i + 1)) == SectorsUsed(FilesUpTo(t, contents, i)) + FileSectors(|contents[i]|)
  {
    FilesUpToAre(t, contents, i);
    UsedWith(FilesUpTo(t, contents, i), Key(t[i].name), contents[i]);
  }

  predicate AllUsed(t: Table, n: nat)
    requires n <= NUM_DIR_ENTRIES
  {
    n == 0 || (t[n - 1].inUse && AllUsed(t, n - 1))
  }

  lemma {:induction false} UnusedIsFree(t: Table, n: nat)
    requires n <= NUM_DIR_ENTRIES
    ensures AllUsed(t, n) <==> forall i :: 0 <= i < n ==> t[i].inUse
  {
    if n > 0 {
      UnusedIsFree(t, n - 1);
    }
  }

  /** As many files as used entries: the table is full exactly when it holds a file for every entry. */
  lemma {:induction false} FullTable(t: Table, contents: seq<seq<Byte>>, n: nat)
    requires |contents| == NUM_DIR_ENTRIES && n <= NUM_DIR_ENTRIES && DistinctNames(t)
    ensures |FilesUpTo(t, contents, n)| <= n && (|FilesUpTo(t, contents, n)| == n <==> AllUsed(t, n))
  {
    if n > 0 {
      FullTable(t, contents, n - 1);
      if t[n - 1].inUse {
        NextFileCounted(t, contents, n - 1);
      }
    }
  }

  /** The objects up to entry n own the system sectors and the sectors of the files listed so far. */
  lemma {:induction false} OwnedUpToCounted(d: Disk, n: nat)
    requires Inv(d) && n <= NUM_DIR_ENTRIES
    ensures |OwnedUpTo(d, Dir(d), n + 2)| == SYSTEM_SECTORS + SectorsUsed(FilesUpTo(Dir(d), Contents(d), n))
  {
    if n == 0 {
      SystemCounted(d);
    } else {
      OwnedUpToCounted(d, n - 1);
      if Dir(d)[n - 1].inUse {
        NextEntryCounted(d, n - 1);
        NextFileCounted(Dir(d), Contents(d), n - 1);
      } else {
        assert !Live(Dir(d), n + 1);
      }
    }
  }

  lemma {:induction false} SystemCounted(d: Disk)
    requires Inv(d)
    ensures |OwnedUpTo(d, Dir(d), 2)| == SYSTEM_SECTORS
  {
    var t := Dir(d);
    assert Live(t, 0) && Live(t, 1);
    assert OwnedUpTo(d, t, 1) == OwnedUpTo(d, t, 0) + Owned(d, 0) == Owned(d, 0);
    assert OwnedUpTo(d, t, 2) == OwnedUpTo(d, t, 1) + Owned(d, 1);
    NextIsApart(d, t, 1);
    OwnedCounted(d, 0);
    OwnedCounted(d, 1);
  }

  /** Conservation: every sector is clear, a system file's, or one of the sectors of exactly one file. */
  lemma ClearSectorsAreTheRest(d: Disk)
    requires Inv(d)
    ensures CountClear(FreeMap(d), NUM_SECTORS) + SYSTEM_SECTORS + SectorsUsed(FilesOf(d)) == NUM_SECTORS
  {
    var t, bits := Dir(d), FreeMap(d);
    forall k ensures k in Marked(bits, NUM_SECTORS) <==> k in OwnedUpTo(d, t, NUM_OBJECTS) {
      InOwnedUpTo(d, t, NUM_OBJECTS, k);
      if k in OwnedUpTo(d, t, NUM_OBJECTS) {
        OwnedOnDisk(d, k);
      }
    }
    assert Marked(bits, NUM_SECTORS) == OwnedUpTo(d, t, NUM_OBJECTS);
    MarkedAndClear(bits, NUM_SECTORS);
    OwnedUpToCounted(d, NUM_DIR_ENTRIES);
    AllFiles(d);
  }

  lemma OwnedOnDisk(d: Disk, k: int)
    requires Inv(d) && Taken(d, Dir(d), k)
    ensures 0 <= k < NUM_SECTORS
  {
  }

  /** Whether a Create succeeds is a matter of the files alone. */
  lemma CanCreateIffRoom(d: Disk, name: Name, size: nat)
    requires Inv(d)
    ensures CanCreate(d, name, size) <==> HasRoom(FilesOf(d), name, size)
  {
    CanCreateMeans(d, name, size);
    ClearSectorsAreTheRest(d);
    FullTable(Dir(d), Contents(d), NUM_DIR_ENTRIES);
    UnusedIsFree(Dir(d), NUM_DIR_ENTRIES);
    AllFiles(d);
  }

  /** No file takes more than a header and the sectors it has room for. */
  lemma {:induction false} UsedAtMost(m: Files)
    requires forall k :: k in m ==> |m[k]| <= MAX_FILE_SIZE
    ensures SectorsUsed(m) <= 31 * |m|
    decreases |m|
  {
    if m != map[] {
      var k :| k in m;
      UsedWithout(m, k);
      assert |m - {k}| == |m| - 1;
      UsedAtMost(m - {k});
      FewerSectors(|m[k]|, MAX_FILE_SIZE);
    }
  }

  lemma FewerSectors(n: nat, size: nat)
    requires n <= size
    ensures FileSectors(n) <= FileSectors(size)
  {
    assert n / SECTOR_SIZE <= size / SECTOR_SIZE;
  }

  lemma FilesAreBounded(d: Disk, k: seq<Byte>)
    requires Inv(d) && k in FilesOf(d)
    ensures |FilesOf(d)[k]| <= MAX_FILE_SIZE
  {
    var i :| 0 <= i < NUM_DIR_ENTRIES && Dir(d)[i].inUse && Key(Dir(d)[i].name) == k;
    assert Live(Dir(d), i + 2);
  }

  /** The directory always fills before the disk: a file that fits a header can be made exactly when its name is
      new and an entry is left. */
  lemma {:induction false} DirectoryFillsFirst(d: Disk, name: Name, size: nat)
    requires Inv(d) && size <= MAX_FILE_SIZE
    ensures CanCreate(d, name, size) <==> Key(name) !in FilesOf(d) && |FilesOf(d)| < NUM_DIR_ENTRIES
  {
    var m := FilesOf(d);
    CanCreateIffRoom(d, name, size);
    forall k | k in m ensures |m[k]| <= MAX_FILE_SIZE {
      FilesAreBounded(d, k);
    }
    UsedAtMost(m);
    FewerSectors(size, MAX_FILE_SIZE);
  }
}

/** Create, Remove and file writes keep the disk invariant and act on the map of files as they should. */
module FileSystemProofs {
  import opened Bytes
  import opened BitMaps
  import opened DiskFiles
  import opened OpenFiles
  import opened Directories
  import opened FileSystemModel

  // ---- frames ----

  /** A live object's header sector survives any change confined to the system files' data and free sectors. */
  lemma HeaderKept(d: Disk, d': Disk, changed: set<int>, o: nat)
    requires Inv(d) && SameOutside(d, d', SystemData(d) + changed)
    requires forall k :: k in changed ==> !Taken(d, Dir(d), k)
    requires o < NUM_OBJECTS && Live(Dir(d), o)
    ensures HeaderSector(Dir(d), o) < NUM_SECTORS
    ensures d'[HeaderSector(Dir(d), o)] == d[HeaderSector(Dir(d), o)]
  {
    var s := HeaderSector(Dir(d), o);
    assert s in Owned(d, s);
    assert InFile(d, Dir(d), o, s);
    SystemDataIsPrivate(d, o, s);
  }

  /** A listed file reads the same after any such change. */
  lemma ListedFileKept(d: Disk, d': Disk, changed: set<int>, i: nat)
    requires Inv(d) && SameOutside(d, d', SystemData(d) + changed)
    requires forall k :: k in changed ==> !Taken(d, Dir(d), k)
    requires i < NUM_DIR_ENTRIES && Dir(d)[i].inUse
    ensures var s := Dir(d)[i].sector;
            && s < NUM_SECTORS && d'[s] == d[s] && HeaderOK(HeaderAt(d', s))
            && FileBytes(d', HeaderAt(d', s)) == EntryBytes(d, i)
  {
    HeaderKept(d, d', changed, i + 2);
    var s := Dir(d)[i].sector;
    forall k | k in Owned(d, s) ensures k !in SystemData(d) + changed {
      assert InFile(d, Dir(d), i + 2, k);
      SystemDataIsPrivate(d, i + 2, k);
    }
    FileUnchanged(d, d', s, SystemData(d) + changed);
  }

  // ---- one entry of the directory changes ----

  lemma KeySet(m: Files, m': Files, name: seq<Byte>, bytes: seq<Byte>)
    requires name in m' && m'[name] == bytes
    requires forall k :: k in m' && k != name ==> k in m && m'[k] == m[k]
    requires forall k :: k in m && k != name ==> k in m'
    ensures m' == m[name := bytes]
  {
  }

  lemma SameEntryNamed(t: Table, c: seq<seq<Byte>>, t': Table, c': seq<seq<Byte>>, slot: nat, k: seq<Byte>)
    requires |c| == |c'| == NUM_DIR_ENTRIES && DistinctNames(t) && DistinctNames(t') && slot < NUM_DIR_ENTRIES
    requires forall i :: 0 <= i < NUM_DIR_ENTRIES && i != slot ==> t'[i] == t[i] && (t[i].inUse ==> c'[i] == c[i])
    requires k in NamedFiles(t, c) && (t[slot].inUse ==> k != Key(t[slot].name))
    ensures k in NamedFiles(t', c') && NamedFiles(t', c')[k] == NamedFiles(t, c)[k]
  {
    var i :| 0 <= i < NUM_DIR_ENTRIES && t[i].inUse && Key(t[i].name) == k;
    assert t'[i] == t[i];
  }

  lemma EntryAdded(t: Table, c: seq<seq<Byte>>, t': Table, c': seq<seq<Byte>>, slot: nat)
    requires |c| == |c'| == NUM_DIR_ENTRIES && DistinctNames(t) && DistinctNames(t')
    requires slot < NUM_DIR_ENTRIES && !t[slot].inUse && t'[slot].inUse
    requires forall i :: 0 <= i < NUM_DIR_ENTRIES && i != slot ==> t'[i] == t[i] && (t[i].inUse ==> c'[i] == c[i])
    ensures NamedFiles(t', c') == NamedFiles(t, c)[Key(t'[slot].name) := c'[slot]]
  {
    var name := Key(t'[slot].name);
    forall k | k in NamedFiles(t', c') && k != name
      ensures k in NamedFiles(t, c) && NamedFiles(t', c')[k] == NamedFiles(t, c)[k]
    {
      SameEntryNamed(t', c', t, c, slot, k);
    }
    forall k | k in NamedFiles(t, c) ensures k in NamedFiles(t', c') {
      SameEntryNamed(t, c, t', c', slot, k);
    }
    KeySet(NamedFiles(t, c), NamedFiles(t', c'), name, c'[slot]);
  }

  lemma EntryRemoved(t: Table, c: seq<seq<Byte>>, t': Table, c': seq<seq<Byte>>, slot: nat)
    requires |c| == |c'| == NUM_DIR_ENTRIES && DistinctNames(t) && DistinctNames(t')
    requires slot < NUM_DIR_ENTRIES && t[slot].inUse && !t'[slot].inUse
    requires forall i :: 0 <= i < NUM_DIR_ENTRIES && i != slot ==> t'[i] == t[i] && (t[i].inUse ==> c'[i] == c[i])
    ensures Key(t[slot].name) in NamedFiles(t, c)
    ensures NamedFiles(t', c') == NamedFiles(t, c) - {Key(t[slot].name)}
  {
    var name := Key(t[slot].name);
    forall k | k in NamedFiles(t, c) && k != name
      ensures k in NamedFiles(t', c') && NamedFiles(t', c')[k] == NamedFiles(t, c)[k]
    {
      SameEntryNamed(t, c, t', c', slot, k);
    }
    forall k | k in NamedFiles(t', c') ensures k in NamedFiles(t, c) && k != name {
      var i :| 0 <= i < NUM_DIR_ENTRIES && t'[i].inUse && Key(t'[i].name) == k;
      assert t'[i] == t[i];
    }
    KeyRemoved(NamedFiles(t, c), NamedFiles(t', c'), name);
  }

  lemma KeyRemoved(m: Files, m': Files, name: seq<Byte>)
    requires forall k :: k in m && k != name ==> k in m' && m'[k] == m[k]
    requires forall k :: k in m' ==> k in m && k != name
    ensures m' == m - {name}
  {
  }

  lemma EntryWritten(t: Table, c: seq<seq<Byte>>, c': seq<seq<Byte>>, slot: nat)
    requires |c| == |c'| == NUM_DIR_ENTRIES && DistinctNames(t) && slot < NUM_DIR_ENTRIES && t[slot].inUse
    requires forall i :: 0 <= i < NUM_DIR_ENTRIES && i != slot && t[i].inUse ==> c'[i] == c[i]
    ensures NamedFiles(t, c') == NamedFiles(t, c)[Key(t[slot].name) := c'[slot]]
  {
    var name := Key(t[slot].name);
    forall k | k in NamedFiles(t, c') && k != name
      ensures k in NamedFiles(t, c) && NamedFiles(t, c')[k] == NamedFiles(t, c)[k]
    {
      SameEntryNamed(t, c', t, c, slot, k);
    }
    forall k | k in NamedFiles(t, c) && k != name ensures k in NamedFiles(t, c') {
      SameEntryNamed(t, c, t, c', slot, k);
    }
    KeySet(NamedFiles(t, c), NamedFiles(t, c'), name, c'[slot]);
  }

  // ---- Create ----

  /** An allocation gives a well-formed header over sectors that were clear, and sets exactly those and the header's. */
  lemma AllocatedHeader(bits: seq<bool>, size: nat, sector: int, h: Header, bits': seq<bool>)
    requires |bits| == NUM_SECTORS && size <= MAX_FILE_SIZE && Allocates(bits, size, sector, h, bits')
    ensures HeaderOK(h) && sector !in DataSet(h) && 0 <= sector < NUM_SECTORS && !bits[sector] && |bits'| == NUM_SECTORS
    ensures forall k :: k in DataSet(h) ==> 0 <= k < NUM_SECTORS && !bits[k]
    ensures forall k :: 0 <= k < NUM_SECTORS ==> (bits'[k] <==> bits[k] || k == sector || k in DataSet(h))
  {
    var n, marked := DivRoundUp(size, SECTOR_SIZE), bits[sector := true];
    TakeClearTakesClear(marked, n);
    var taken := h.dataSectors[..n];
    assert forall i :: 0 <= i < n ==> h.dataSectors[i] == taken[i];
    forall k | 0 <= k < NUM_SECTORS ensures k in DataSet(h) <==> k in taken {
      InDataSet(h, k);
    }
    forall k | k in DataSet(h) ensures 0 <= k < NUM_SECTORS && !marked[k] {
    }
  }

  /** The header a Create writes is well formed, and all its sectors were free. */
  lemma NewHeaderOK(d: Disk, name: Name, size: nat, h: Header, d': Disk)
    requires Inv(d) && Creates(d, name, size, h, d')
    ensures var sector := FirstClear(FreeMap(d));
            && HeaderOK(h) && sector !in DataSet(h) && 0 <= sector < NUM_SECTORS
            && !Taken(d, Dir(d), sector)
            && (forall k :: k in DataSet(h) ==> 0 <= k < NUM_SECTORS && !Taken(d, Dir(d), k))
            && forall k :: 0 <= k < NUM_SECTORS ==>
                 (FreeMap(d')[k] <==> FreeMap(d)[k] || k == sector || k in DataSet(h))
  {
    AllocatedHeader(FreeMap(d), size, FirstClear(FreeMap(d)), h, FreeMap(d'));
  }

  lemma ObjectKept(d: Disk, name: Name, size: nat, h: Header, d': Disk, o: nat)
    requires Inv(d) && Creates(d, name, size, h, d') && o < NUM_OBJECTS && Live(Dir(d), o)
    ensures Live(Dir(d'), o) && HeaderSector(Dir(d'), o) == HeaderSector(Dir(d), o) < NUM_SECTORS
    ensures d'[HeaderSector(Dir(d), o)] == d[HeaderSector(Dir(d), o)]
  {
    NewHeaderOK(d, name, size, h, d');
    HeaderKept(d, d', {FirstClear(FreeMap(d))}, o);
  }

  lemma ObjectsKept(d: Disk, name: Name, size: nat, h: Header, d': Disk)
    requires Inv(d) && Creates(d, name, size, h, d')
    ensures var t, t' := Dir(d), Dir(d');
            forall o :: 0 <= o < NUM_OBJECTS && Live(t, o) ==>
              && HeaderSector(t', o) == HeaderSector(t, o) < NUM_SECTORS && Live(t', o)
              && d'[HeaderSector(t, o)] == d[HeaderSector(t, o)]
  {
    forall o | 0 <= o < NUM_OBJECTS && Live(Dir(d), o)
      ensures Live(Dir(d'), o) && HeaderSector(Dir(d'), o) == HeaderSector(Dir(d), o) < NUM_SECTORS
      ensures d'[HeaderSector(Dir(d), o)] == d[HeaderSector(Dir(d), o)]
    {
      ObjectKept(d, name, size, h, d', o);
    }
  }

  /** After a Create each object owns what it owned, and the new entry owns the sectors taken. */
  lemma OwnersAfterCreate(d: Disk, name: Name, size: nat, h: Header, d': Disk)
    requires Inv(d) && Creates(d, name, size, h, d')
    ensures HeadersOK(d', Dir(d'))
    ensures forall o, k :: InFile(d', Dir(d'), o, k) <==>
              if o == FreeIndex(Dir(d)) + 2 then k == FirstClear(FreeMap(d)) || k in DataSet(h)
              else InFile(d, Dir(d), o, k)
  {
    NewHeaderOK(d, name, size, h, d');
    ObjectsKept(d, name, size, h, d');
  }

  lemma CreateKeepsOwners(d: Disk, name: Name, size: nat, h: Header, d': Disk, o: nat, o': nat, k: int)
    requires Inv(d) && Creates(d, name, size, h, d') && HeadersOK(d', Dir(d'))
    requires InFile(d', Dir(d'), o, k) && InFile(d', Dir(d'), o', k)
    ensures o == o'
  {
    NewHeaderOK(d, name, size, h, d');
    OwnersAfterCreate(d, name, size, h, d');
    var t, slot := Dir(d), FreeIndex(Dir(d));
    if o != slot + 2 { assert InFile(d, t, o, k); assert Taken(d, t, k); }
    if o' != slot + 2 { assert InFile(d, t, o', k); assert Taken(d, t, k); }
  }

  lemma CreateKeepsMap(d: Disk, name: Name, size: nat, h: Header, d': Disk, k: int)
    requires Inv(d) && Creates(d, name, size, h, d') && HeadersOK(d', Dir(d')) && 0 <= k < NUM_SECTORS
    ensures FreeMap(d')[k] <==> Taken(d', Dir(d'), k)
  {
    NewHeaderOK(d, name, size, h, d');
    OwnersAfterCreate(d, name, size, h, d');
    var t, t', slot, sector := Dir(d), Dir(d'), FreeIndex(Dir(d)), FirstClear(FreeMap(d));
    if Taken(d, t, k) {
      var o :| 0 <= o < NUM_OBJECTS && InFile(d, t, o, k);
      assert InFile(d', t', o, k);
    }
    if k == sector || k in DataSet(h) {
      assert InFile(d', t', slot + 2, k);
    }
    if Taken(d', t', k) {
      var o :| 0 <= o < NUM_OBJECTS && InFile(d', t', o, k);
      if o != slot + 2 { assert InFile(d, t, o, k); }
    }
  }

  lemma CreateKeepsNames(d: Disk, name: Name, size: nat, h: Header, d': Disk)
    requires Inv(d) && Creates(d, name, size, h, d')
    ensures DistinctNames(Dir(d'))
  {
    var t, slot := Dir(d), FreeIndex(Dir(d));
    CopiedKey(t[slot].name, name, 0);
    forall i | 0 <= i < NUM_DIR_ENTRIES && t[i].inUse ensures Key(t[i].name) != Key(name) {
      SameNameIsSameKey(t[i].name, name, 0);
    }
  }

  lemma CreateKeepsInv(d: Disk, name: Name, size: nat, h: Header, d': Disk)
    requires Inv(d) && Creates(d, name, size, h, d')
    ensures Inv(d')
  {
    OwnersAfterCreate(d, name, size, h, d');
    forall o, o', k | InFile(d', Dir(d'), o, k) && InFile(d', Dir(d'), o', k) ensures o == o' {
      CreateKeepsOwners(d, name, size, h, d', o, o', k);
    }
    forall k | 0 <= k < NUM_SECTORS ensures FreeMap(d')[k] <==> Taken(d', Dir(d'), k) {
      CreateKeepsMap(d, name, size, h, d', k);
    }
    CreateKeepsNames(d, name, size, h, d');
  }

  lemma {:induction false} OtherEntriesKept(d: Disk, name: Name, size: nat, h: Header, d': Disk, i: nat)
    requires Inv(d) && Creates(d, name, size, h, d') && Inv(d')
    requires i < NUM_DIR_ENTRIES && Dir(d)[i].inUse
    ensures Key(Dir(d)[i].name) != Key(name) && Dir(d')[i] == Dir(d)[i] && EntryBytes(d', i) == EntryBytes(d, i)
  {
    NewHeaderOK(d, name, size, h, d');
    SameNameIsSameKey(Dir(d)[i].name, name, 0);
    ListedFileKept(d, d', {FirstClear(FreeMap(d))}, i);
  }

  lemma {:induction false} NewNameUnlisted(d: Disk, name: Name)
    requires Inv(d) && IndexOf(Dir(d), name) == -1
    ensures Key(name) !in FilesOf(d)
  {
    forall i | 0 <= i < NUM_DIR_ENTRIES && Dir(d)[i].inUse ensures Key(Dir(d)[i].name) != Key(name) {
      SameNameIsSameKey(Dir(d)[i].name, name, 0);
    }
  }

  /** Create adds one name, of the size asked for, and no other file changes. */
  lemma {:induction false} CreateAddsOneFile(d: Disk, name: Name, size: nat, h: Header, d': Disk)
    requires Inv(d) && Creates(d, name, size, h, d')
    ensures Inv(d') && HeaderOK(h) && Key(name) !in FilesOf(d)
    ensures FilesOf(d') == FilesOf(d)[Key(name) := FileBytes(d', h)] && |FileBytes(d', h)| == size
  {
    CreateKeepsInv(d, name, size, h, d');
    NewHeaderOK(d, name, size, h, d');
    NewNameUnlisted(d, name);
    var slot := FreeIndex(Dir(d));
    CopiedKey(Dir(d)[slot].name, name, 0);
    forall i | 0 <= i < NUM_DIR_ENTRIES && Dir(d)[i].inUse ensures Contents(d')[i] == Contents(d)[i] {
      OtherEntriesKept(d, name, size, h, d', i);
    }
    assert EntryBytes(d', slot) == FileBytes(d', h);
    EntryAdded(Dir(d), Contents(d), Dir(d'), Contents(d'), slot);
  }

  /** The new file reads as whatever its sectors held: Create writes no data. */
  lemma CreatedBytes(d: Disk, name: Name, size: nat, h: Header, d': Disk)
    requires Inv(d) && Creates(d, name, size, h, d')
    ensures HeaderOK(h) && FileBytes(d', h) == FileBytes(d, h)
  {
    NewHeaderOK(d, name, size, h, d');
    forall k | k in DataSet(h) ensures d'[k] == d[k] {
      FreeIsOutside(d, k);
    }
    forall k | 0 <= k < h.numBytes ensures FileByte(d', h, k) == FileByte(d, h, k) {
      SectorsFit(h);
      assert h.dataSectors[k / SECTOR_SIZE] in DataSet(h);
    }
  }

  lemma SystemDataIsTaken(d: Disk, k: int)
    requires Inv(d) && k in SystemData(d)
    ensures Taken(d, Dir(d), k)
  {
    var t := Dir(d);
    assert Live(t, 0) && Live(t, 1);
    assert if k in DataSet(HeaderAt(d, 0)) then InFile(d, t, 0, k) else InFile(d, t, 1, k);
  }

  lemma FreeIsOutside(d: Disk, k: int)
    requires Inv(d)
    ensures k !in SystemData(d) || Taken(d, Dir(d), k)
  {
    if k in SystemData(d) {
      SystemDataIsTaken(d, k);
    }
  }

  /** A Create that the disk cannot serve is exactly one whose name is listed, whose entry, header sector or
      data sectors are not to be had. */
  ghost predicate CanCreate(d: Disk, name: Name, size: nat)
    requires SystemFilesOK(d)
  {
    && IndexOf(Dir(d), name) == -1 && FreeIndex(Dir(d)) != -1 && FirstClear(FreeMap(d)) != -1
    && CountClear(FreeMap(d)[FirstClear(FreeMap(d)) := true], NUM_SECTORS) >= DivRoundUp(size, SECTOR_SIZE)
  }

  /** In terms of the files: the name must be new, an entry unused, and one sector more than the data needs clear. */
  lemma {:induction false} CanCreateMeans(d: Disk, name: Name, size: nat)
    requires Inv(d)
    ensures CanCreate(d, name, size) <==>
      && Key(name) !in FilesOf(d)
      && (exists i :: 0 <= i < NUM_DIR_ENTRIES && !Dir(d)[i].inUse)
      && CountClear(FreeMap(d), NUM_SECTORS) > DivRoundUp(size, SECTOR_SIZE)
  {
    var t, bits := Dir(d), FreeMap(d);
    forall i | 0 <= i < NUM_DIR_ENTRIES && t[i].inUse ensures SameName(t[i].name, name) <==> Key(t[i].name) == Key(name) {
      SameNameIsSameKey(t[i].name, name, 0);
    }
    if FirstClear(bits) != -1 {
      CountAfterMark(bits, FirstClear(bits), NUM_SECTORS);
    } else if CountClear(bits, NUM_SECTORS) > 0 {
      PositiveCountHasClear(bits, NUM_SECTORS);
    }
  }

  // ---- Remove ----

  lemma {:induction false} OwnersAfterRemove(d: Disk, name: Name, d': Disk)
    requires Inv(d) && Removes(d, name, d')
    ensures HeadersOK(d', Dir(d'))
    ensures forall o, k :: InFile(d', Dir(d'), o, k) <==> o != IndexOf(Dir(d), name) + 2 && InFile(d, Dir(d), o, k)
  {
    var t, t' := Dir(d), Dir(d');
    forall o | 0 <= o < NUM_OBJECTS && Live(t', o) ensures HeaderSector(t', o) == HeaderSector(t, o) && Live(t, o)
      ensures HeaderSector(t, o) < NUM_SECTORS && d'[HeaderSector(t, o)] == d[HeaderSector(t, o)]
    {
      HeaderKept(d, d', {}, o);
    }
  }

  lemma RemoveKeepsInv(d: Disk, name: Name, d': Disk)
    requires Inv(d) && Removes(d, name, d')
    ensures Inv(d')
  {
    OwnersAfterRemove(d, name, d');
    var t, t', i := Dir(d), Dir(d'), IndexOf(Dir(d), name);
    forall k | 0 <= k < NUM_SECTORS ensures FreeMap(d')[k] <==> Taken(d', t', k) {
      if k in Owned(d, t[i].sector) {
        assert InFile(d, t, i + 2, k);
      }
      if Taken(d, t, k) && k !in Owned(d, t[i].sector) {
        var o :| 0 <= o < NUM_OBJECTS && InFile(d, t, o, k);
        assert InFile(d', t', o, k);
      }
      if Taken(d', t', k) {
        var o :| 0 <= o < NUM_OBJECTS && InFile(d', t', o, k);
        assert InFile(d, t, o, k);
      }
    }
  }

  /** Every sector a listed file owns is marked, so Deallocate's assertion never fires. */
  lemma ListedSectorsAreMarked(d: Disk, i: nat)
    requires Inv(d) && i < NUM_DIR_ENTRIES && Dir(d)[i].inUse
    ensures var s := Dir(d)[i].sector;
            && s < NUM_SECTORS && HeaderOK(HeaderAt(d, s)) && s !in DataSet(HeaderAt(d, s))
            && forall k :: k in Owned(d, s) ==> 0 <= k < NUM_SECTORS && FreeMap(d)[k]
  {
    assert Live(Dir(d), i + 2);
    var s := Dir(d)[i].sector;
    forall k | k in Owned(d, s) ensures 0 <= k < NUM_SECTORS && FreeMap(d)[k] {
      assert InFile(d, Dir(d), i + 2, k);
    }
  }

  /** Remove deletes one name, and no other file changes. */
  lemma {:induction false} RemoveDeletesOneFile(d: Disk, name: Name, d': Disk)
    requires Inv(d) && Removes(d, name, d')
    ensures Inv(d') && Key(name) in FilesOf(d) && FilesOf(d') == FilesOf(d) - {Key(name)}
  {
    RemoveKeepsInv(d, name, d');
    var i := IndexOf(Dir(d), name);
    SameNameIsSameKey(Dir(d)[i].name, name, 0);
    forall j | 0 <= j < NUM_DIR_ENTRIES && j != i && Dir(d)[j].inUse ensures Contents(d')[j] == Contents(d)[j] {
      ListedFileKept(d, d', {}, j);
    }
    EntryRemoved(Dir(d), Contents(d), Dir(d'), Contents(d'), i);
  }

  /** Remove after a Create clears exactly the sectors the Create took. */
  lemma CreateThenRemoveFrees(d: Disk, name: Name, size: nat, h: Header, d1: Disk, d2: Disk)
    requires Inv(d) && Creates(d, name, size, h, d1) && Inv(d1) && Removes(d1, name, d2)
    ensures FreeMap(d2) == FreeMap(d)
  {
    NewHeaderOK(d, name, size, h, d1);
    var slot, sector, i := FreeIndex(Dir(d)), FirstClear(FreeMap(d)), IndexOf(Dir(d1), name);
    CopiedKey(Dir(d)[slot].name, name, 0);
    SameNameIsSameKey(Dir(d1)[i].name, name, 0);
    assert i == slot;
    assert Owned(d1, sector) == {sector as int} + DataSet(h);
    forall k | 0 <= k < NUM_SECTORS ensures FreeMap(d2)[k] == FreeMap(d)[k] {
      assert FreeMap(d2)[k] <==> FreeMap(d1)[k] && k !in Owned(d1, sector);
      assert FreeMap(d1)[k] <==> FreeMap(d)[k] || k in Owned(d1, sector);
    }
  }

  lemma SetThenRemoved(m: Files, name: seq<Byte>, bytes: seq<Byte>)
    requires name !in m
    ensures m[name := bytes] - {name} == m
  {
  }

  /** Create followed by Remove of the same name gives back the free map and the files. */
  lemma CreateThenRemoveRestores(d: Disk, name: Name, size: nat, h: Header, d1: Disk, d2: Disk)
    requires Inv(d) && Creates(d, name, size, h, d1) && Removes(d1, name, d2)
    ensures Inv(d2) && FreeMap(d2) == FreeMap(d) && FilesOf(d2) == FilesOf(d)
  {
    CreateAddsOneFile(d, name, size, h, d1);
    RemoveDeletesOneFile(d1, name, d2);
    CreateThenRemoveFrees(d, name, size, h, d1, d2);
    SetThenRemoved(FilesOf(d), Key(name), FileBytes(d1, h));
  }

  // ---- writes to a listed file ----

  lemma WriteKeepsInv(d: Disk, i: nat, position: nat, data: seq<Byte>, d': Disk)
    requires Inv(d) && i < NUM_DIR_ENTRIES && Dir(d)[i].inUse && Dir(d)[i].sector < NUM_SECTORS
    requires Written(d, HeaderAt(d, Dir(d)[i].sector), position, data, d')
    ensures Inv(d') && Dir(d') == Dir(d) && FreeMap(d') == FreeMap(d)
  {
    assert Live(Dir(d), 0) && Live(Dir(d), 1);
    WriteMissesOthers(d, i, position, data, d', 0);
    WriteMissesOthers(d, i, position, data, d', 1);
    assert HeaderSector(Dir(d), 0) == 0 && HeaderSector(Dir(d), 1) == 1;
    forall o | 0 <= o < NUM_OBJECTS && Live(Dir(d), o)
      ensures HeaderSector(Dir(d), o) < NUM_SECTORS && d'[HeaderSector(Dir(d), o)] == d[HeaderSector(Dir(d), o)]
    {
      WriteMissesOthers(d, i, position, data, d', o);
    }
    WriteKeepsConsistent(d, d');
  }

  lemma OtherEntryRead(d: Disk, i: nat, position: nat, data: seq<Byte>, d': Disk, j: nat)
    requires Inv(d) && i < NUM_DIR_ENTRIES && Dir(d)[i].inUse && Dir(d)[i].sector < NUM_SECTORS
    requires Written(d, HeaderAt(d, Dir(d)[i].sector), position, data, d') && Inv(d') && Dir(d') == Dir(d)
    requires j < NUM_DIR_ENTRIES && Dir(d)[j].inUse && j != i
    ensures EntryBytes(d', j) == EntryBytes(d, j)
  {
    assert Live(Dir(d), j + 2);
    WriteMissesOthers(d, i, position, data, d', j + 2);
  }

  lemma EntryOverwritten(d: Disk, i: nat, position: nat, data: seq<Byte>, d': Disk)
    requires Inv(d) && i < NUM_DIR_ENTRIES && Dir(d)[i].inUse && Dir(d)[i].sector < NUM_SECTORS
    requires Written(d, HeaderAt(d, Dir(d)[i].sector), position, data, d') && data != [] && Inv(d') && Dir(d') == Dir(d)
    ensures position + |data| <= |EntryBytes(d, i)|
    ensures EntryBytes(d', i) == Overwrite(EntryBytes(d, i), position, data)
  {
    assert Live(Dir(d), i + 2);
    WriteMissesOthers(d, i, position, data, d', i + 2);
  }

  /** Writing to a listed file changes that file's bytes, where it writes, and nothing else the disk means. */
  lemma WriteChangesOneFile(d: Disk, i: nat, position: nat, data: seq<Byte>, d': Disk)
    requires Inv(d) && i < NUM_DIR_ENTRIES && Dir(d)[i].inUse && Dir(d)[i].sector < NUM_SECTORS
    requires Written(d, HeaderAt(d, Dir(d)[i].sector), position, data, d') && data != []
    ensures Inv(d') && Dir(d') == Dir(d) && FreeMap(d') == FreeMap(d)
    ensures position + |data| <= |EntryBytes(d, i)|
    ensures FilesOf(d') == FilesOf(d)[Key(Dir(d)[i].name) := Overwrite(EntryBytes(d, i), position, data)]
  {
    WriteKeepsInv(d, i, position, data, d');
    forall j | 0 <= j < NUM_DIR_ENTRIES && Dir(d)[j].inUse && j != i ensures Contents(d')[j] == Contents(d)[j] {
      OtherEntryRead(d, i, position, data, d', j);
    }
    EntryOverwritten(d, i, position, data, d');
    EntryWritten(Dir(d), Contents(d), Contents(d'), i);
  }

  lemma WriteKeepsConsistent(d: Disk, d': Disk)
    requires Inv(d) && SystemFilesOK(d') && Dir(d') == Dir(d) && FreeMap(d') == FreeMap(d) && HeadersOK(d', Dir(d'))
    requires forall o, k :: InFile(d', Dir(d'), o, k) <==> InFile(d, Dir(d), o, k)
    ensures Inv(d')
  {
    forall k | 0 <= k < NUM_SECTORS ensures Taken(d', Dir(d'), k) <==> Taken(d, Dir(d), k) {
      if Taken(d, Dir(d), k) {
        var o :| 0 <= o < NUM_OBJECTS && InFile(d, Dir(d), o, k);
        assert InFile(d', Dir(d'), o, k);
      }
      if Taken(d', Dir(d'), k) {
        var o :| 0 <= o < NUM_OBJECTS && InFile(d', Dir(d'), o, k);
        assert InFile(d, Dir(d), o, k);
      }
    }
  }

  /** A write to entry i's file touches no header and no other object's data. */
  lemma WriteMissesOthers(d: Disk, i: nat, position: nat, data: seq<Byte>, d': Disk, o: nat)
    requires Inv(d) && i < NUM_DIR_ENTRIES && Dir(d)[i].inUse && Dir(d)[i].sector < NUM_SECTORS
    requires Written(d, HeaderAt(d, Dir(d)[i].sector), position, data, d')
    requires o < NUM_OBJECTS && Live(Dir(d), o)
    ensures var s := HeaderSector(Dir(d), o);
            && s < NUM_SECTORS && HeaderOK(HeaderAt(d, s)) && d'[s] == d[s]
            && (o != i + 2 ==> FileBytes(d', HeaderAt(d, s)) == FileBytes(d, HeaderAt(d, s)))
  {
    var t, s, h := Dir(d), HeaderSector(Dir(d), o), HeaderAt(d, Dir(d)[i].sector);
    assert Live(t, i + 2);
    forall k | k in DataSet(h) ensures InFile(d, t, i + 2, k) {
    }
    assert InFile(d, t, o, s);
    TouchedInside(h, position, |data|, s);
    if o != i + 2 {
      forall k | k in DataSet(HeaderAt(d, s)) ensures k !in DataSet(h) {
        assert InFile(d, t, o, k);
      }
      OtherFileUntouched(d, h, position, data, d', HeaderAt(d, s));
    }
  }
}

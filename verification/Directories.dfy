/** The directory: a table of names of at most nine characters and header sectors. */
module Directories {
  import opened Bytes
  import opened DiskFiles
  import opened OpenFiles

  const FILE_NAME_MAX_LEN := 9
  const NUM_DIR_ENTRIES := 10
  /** sizeof(DirectoryEntry): a bool padded to four bytes, an int, ten characters padded to twelve. */
  const ENTRY_SIZE := 20
  const DIRECTORY_FILE_SIZE := ENTRY_SIZE * NUM_DIR_ENTRIES

  /** A C string without its terminator. */
  type Name = n: seq<Byte> | forall i :: 0 <= i < |n| ==> n[i] != 0

  datatype DirectoryEntry = DirectoryEntry(inUse: bool, sector: Word, name: seq<Byte>)

  type Table = t: seq<DirectoryEntry> | |t| == NUM_DIR_ENTRIES && forall i :: 0 <= i < |t| ==> |t[i].name| == FILE_NAME_MAX_LEN + 1
    witness seq(NUM_DIR_ENTRIES, _ => DirectoryEntry(false, 0, seq(FILE_NAME_MAX_LEN + 1, _ => 0)))

  // ---- names ----

  /** The i-th character of a string, NUL past its end. */
  function CharAt(s: seq<Byte>, i: nat): Byte { if i < |s| then s[i] else 0 }

  /** !strncmp(a, b, FileNameMaxLen), from character `i` on */
  predicate SameName(a: seq<Byte>, b: seq<Byte>, i: nat := 0)
    decreases FILE_NAME_MAX_LEN - i
  {
    i >= FILE_NAME_MAX_LEN
    || (CharAt(a, i) == CharAt(b, i) && (CharAt(a, i) == 0 || SameName(a, b, i + 1)))
  }

  /** strncpy(dst, src, FileNameMaxLen): nine characters, NUL-padded; the tenth byte is left alone. */
  function CopyName(dst: seq<Byte>, src: Name): (r: seq<Byte>)
    requires |dst| == FILE_NAME_MAX_LEN + 1
    ensures |r| == |dst|
  {
    seq<Byte>(FILE_NAME_MAX_LEN, i requires 0 <= i => CharAt(src, i)) + dst[FILE_NAME_MAX_LEN..]
  }

  /** What a stored or given name is identified by: its characters up to NUL, nine at most. */
  function Key(s: seq<Byte>, i: nat := 0): (k: seq<Byte>)
    decreases FILE_NAME_MAX_LEN - i
  {
    if i >= FILE_NAME_MAX_LEN || CharAt(s, i) == 0 then [] else [CharAt(s, i)] + Key(s, i + 1)
  }

  function Min(a: nat, b: nat): nat { if a < b then a else b }

  /** So a name is identified by its first nine characters, or all when it has fewer. */
  lemma {:induction false} KeyIsPrefix(s: Name, i: nat)
    requires i <= Min(|s|, FILE_NAME_MAX_LEN)
    ensures Key(s, i) == s[i..Min(|s|, FILE_NAME_MAX_LEN)]
    decreases FILE_NAME_MAX_LEN - i
  {
    if i < Min(|s|, FILE_NAME_MAX_LEN) {
      KeyIsPrefix(s, i + 1);
      assert s[i..Min(|s|, FILE_NAME_MAX_LEN)] == [s[i]] + s[i + 1..Min(|s|, FILE_NAME_MAX_LEN)];
    }
  }

  /** strncmp over nine characters identifies exactly the names with the same key. */
  lemma {:induction false} SameNameIsSameKey(a: seq<Byte>, b: seq<Byte>, i: nat)
    ensures SameName(a, b, i) <==> Key(a, i) == Key(b, i)
    decreases FILE_NAME_MAX_LEN - i
  {
    if i < FILE_NAME_MAX_LEN {
      SameNameIsSameKey(a, b, i + 1);
      if Key(a, i) != [] { assert Key(a, i)[1..] == Key(a, i + 1); }
      if Key(b, i) != [] { assert Key(b, i)[1..] == Key(b, i + 1); }
    }
  }

  lemma {:induction false} CopiedKey(dst: seq<Byte>, src: Name, i: nat)
    requires |dst| == FILE_NAME_MAX_LEN + 1
    ensures Key(CopyName(dst, src), i) == Key(src, i)
    decreases FILE_NAME_MAX_LEN - i
  {
    if i < FILE_NAME_MAX_LEN {
      CopiedKey(dst, src, i + 1);
    }
  }

  // ---- the table ----

  /** The first used entry with the name, or -1. */
  function IndexOf(t: seq<DirectoryEntry>, name: seq<Byte>, from: nat := 0): (i: int)
    requires from <= |t|
    ensures i == -1 || from <= i < |t|
    ensures i == -1 ==> forall k :: from <= k < |t| ==> !(t[k].inUse && SameName(t[k].name, name))
    ensures i != -1 ==> t[i].inUse && SameName(t[i].name, name)
                        && forall k :: from <= k < i ==> !(t[k].inUse && SameName(t[k].name, name))
    decreases |t| - from
  {
    if from == |t| then -1
    else if t[from].inUse && SameName(t[from].name, name) then from
    else IndexOf(t, name, from + 1)
  }

  /** The first unused entry, or -1. */
  function FreeIndex(t: seq<DirectoryEntry>, from: nat := 0): (i: int)
    requires from <= |t|
    ensures i == -1 || from <= i < |t|
    ensures i == -1 ==> forall k :: from <= k < |t| ==> t[k].inUse
    ensures i != -1 ==> !t[i].inUse && forall k :: from <= k < i ==> t[k].inUse
    decreases |t| - from
  {
    if from == |t| then -1 else if !t[from].inUse then from else FreeIndex(t, from + 1)
  }

  function Added(t: Table, i: nat, name: Name, sector: Word): (r: Table)
    requires i < |t|
  {
    t[i := DirectoryEntry(true, sector, CopyName(t[i].name, name))]
  }

  // ---- the table on disk ----

  function EncodeEntry(e: DirectoryEntry): (r: seq<Byte>)
    requires |e.name| == FILE_NAME_MAX_LEN + 1
    ensures |r| == ENTRY_SIZE
  {
    [if e.inUse then 1 else 0, 0, 0, 0] + EncodeWord(e.sector) + e.name + [0, 0]
  }

  function DecodeEntry(b: seq<Byte>): (e: DirectoryEntry)
    requires |b| == ENTRY_SIZE
    ensures |e.name| == FILE_NAME_MAX_LEN + 1
  {
    DirectoryEntry(b[0] != 0, DecodeWord(b[4..8]), b[8..18])
  }

  lemma EntryRoundTrip(e: DirectoryEntry)
    requires |e.name| == FILE_NAME_MAX_LEN + 1
    ensures DecodeEntry(EncodeEntry(e)) == e
  {
    WordRoundTrip(e.sector);
    assert EncodeEntry(e)[4..8] == EncodeWord(e.sector);
    assert EncodeEntry(e)[8..18] == e.name;
  }

  function EncodeTable(t: seq<DirectoryEntry>): (r: seq<Byte>)
    requires forall i :: 0 <= i < |t| ==> |t[i].name| == FILE_NAME_MAX_LEN + 1
    ensures |r| == ENTRY_SIZE * |t|
  {
    if t == [] then [] else EncodeEntry(t[0]) + EncodeTable(t[1..])
  }

  function DecodeTable(b: seq<Byte>): (t: seq<DirectoryEntry>)
    requires |b| % ENTRY_SIZE == 0
    ensures ENTRY_SIZE * |t| == |b| && forall i :: 0 <= i < |t| ==> |t[i].name| == FILE_NAME_MAX_LEN + 1
  {
    if b == [] then [] else [DecodeEntry(b[..ENTRY_SIZE])] + DecodeTable(b[ENTRY_SIZE..])
  }

  /** A directory written back and fetched again is the same table. */
  lemma {:induction false} TableRoundTrip(t: seq<DirectoryEntry>)
    requires forall i :: 0 <= i < |t| ==> |t[i].name| == FILE_NAME_MAX_LEN + 1
    ensures DecodeTable(EncodeTable(t)) == t
  {
    if t != [] {
      TableRoundTrip(t[1..]);
      EntryRoundTrip(t[0]);
      assert EncodeTable(t)[..ENTRY_SIZE] == EncodeEntry(t[0]);
      assert EncodeTable(t)[ENTRY_SIZE..] == EncodeTable(t[1..]);
    }
  }

  class Directory {
    const table: array<DirectoryEntry>

    ghost predicate Valid()
      reads table
    {
      table.Length == NUM_DIR_ENTRIES && forall i :: 0 <= i < table.Length ==> |table[i].name| == FILE_NAME_MAX_LEN + 1
    }

    ghost function Entries(): (t: Table)
      requires Valid()
      reads table
    {
      table[..]
    }

    /** Every entry starts unused; its sector and name are whatever the memory held. */
    constructor (garbage: Table)
      ensures Valid() && fresh(table)
      ensures forall i :: 0 <= i < NUM_DIR_ENTRIES ==> !Entries()[i].inUse
    {
      table := new DirectoryEntry[NUM_DIR_ENTRIES](i requires 0 <= i < NUM_DIR_ENTRIES => garbage[i]);
      new;
      var i := 0;
      while i < NUM_DIR_ENTRIES
        invariant 0 <= i <= NUM_DIR_ENTRIES && Valid()
        invariant forall k :: 0 <= k < i ==> !table[k].inUse
      {
        table[i] := table[i].(inUse := false);
        i := i + 1;
      }
    }

    method FindIndex(name: Name) returns (r: int)
      requires Valid()
      ensures r == IndexOf(Entries(), name)
    {
      var i := 0;
      while i < table.Length
        invariant 0 <= i <= table.Length
        invariant IndexOf(Entries(), name) == IndexOf(Entries(), name, i)
      {
        if table[i].inUse && SameName(table[i].name, name) {
          return i;
        }
        i := i + 1;
      }
      return -1;
    }

    /** The header sector of the file, or -1. */
    method Find(name: Name) returns (sector: int)
      requires Valid()
      ensures var i := IndexOf(Entries(), name); sector == if i == -1 then -1 else Entries()[i].sector
    {
      var i := FindIndex(name);
      sector := if i != -1 then table[i].sector else -1;
    }

    /** Enters a new name, unless it is there already or the table is full. */
    method Add(name: Name, newSector: Word) returns (ok: bool)
      requires Valid()
      modifies table
      ensures Valid()
      ensures ok <==> IndexOf(old(Entries()), name) == -1 && FreeIndex(old(Entries())) != -1
      ensures Entries() == if ok then Added(old(Entries()), FreeIndex(old(Entries())), name, newSector) else old(Entries())
    {
      var found := FindIndex(name);
      if found != -1 {
        return false;
      }
      ghost var t := Entries();
      var i := 0;
      while i < table.Length
        invariant 0 <= i <= table.Length && table[..] == t && FreeIndex(t) == FreeIndex(t, i)
      {
        if !table[i].inUse {
          table[i] := DirectoryEntry(true, newSector, CopyName(table[i].name, name));
          assert table[..] == Added(t, i, name, newSector);
          return true;
        }
        i := i + 1;
      }
      return false;
    }

    method Remove(name: Name) returns (ok: bool)
      requires Valid()
      modifies table
      ensures Valid()
      ensures var t, i := old(Entries()), IndexOf(old(Entries()), name);
              (ok <==> i != -1) && Entries() == if ok then t[i := t[i].(inUse := false)] else t
    {
      ghost var t := Entries();
      var i := FindIndex(name);
      if i == -1 {
        return false;
      }
      table[i] := table[i].(inUse := false);
      assert table[..] == t[i := t[i].(inUse := false)];
      return true;
    }

    method FetchFrom(file: OpenFile)
      requires Valid() && file.Valid() && file.hdr.numBytes == DIRECTORY_FILE_SIZE
      requires file.disk.sectors != table as object && file.hdr != table as object
      modifies table
      ensures Valid() && Entries() == DecodeTable(file.Content())
    {
      var buffer := new Byte[DIRECTORY_FILE_SIZE];
      var n := file.ReadAt(buffer, 0, DIRECTORY_FILE_SIZE, 0);
      assert buffer[..] == file.Content();
      var t := DecodeTable(buffer[..]);
      assert DecodeTable(file.Content()) == t;
      var i := 0;
      while i < NUM_DIR_ENTRIES
        invariant 0 <= i <= NUM_DIR_ENTRIES && table.Length == NUM_DIR_ENTRIES
        invariant forall k :: 0 <= k < i ==> table[k] == t[k]
        modifies table
      {
        table[i] := t[i];
        i := i + 1;
      }
      assert table[..] == t;
    }

    method WriteBack(file: OpenFile)
      requires Valid() && file.Valid() && file.hdr.numBytes == DIRECTORY_FILE_SIZE
      requires file.disk.sectors != table as object
      modifies file.disk.sectors
      ensures Written(old(file.disk.sectors[..]), file.hdr.Value(), 0, EncodeTable(old(Entries())), file.disk.sectors[..])
    {
      var data := EncodeTable(table[..]);
      var n := file.WriteAt(data, |data|, 0);
      assert data[..n] == data;
    }
  }
}

# Nachos kernel model

A Dafny model of the parts of this Nachos where state must agree with state: demand paging, the file system, the
message layer, threads and their synchronization, simulated time, and two arithmetic kernels. Each part has the
source's operations as functions on values, the code of those operations as classes and methods proved equal to the
functions, and theorems about the functions over whole runs.

| files | what they hold |
|---|---|
| `PagingModel`, `Paging`, `PagingProofs`, `PagingRuns` | TLB, inverted page table, page tables and swap; refinement to one flat memory per address space |
| `PagingOrders`, `PagingDirty` | which frame and slot a fault takes, what halts the machine, what a dirty bit means |
| `PagingLimits`, `PagingRepair` | what the missing copy-back of dirty bits costs, exactly; the repaired code, without a premise |
| `Bytes`, `BitMaps`, `DiskFiles`, `OpenFiles`, `Directories` | bytes and words, the bit map, headers and sectors, reads and writes of any range, the directory |
| `FileSystemModel`, `FileSystemProofs`, `FileSystemCapacity`, `FileSystems` | the invariant of the disk, Create, Remove and writes, what a disk can hold, refinement to a map from names to bytes |
| `Texts`, `GroupInfo` | numbers as text, framing, `itoa`, the member list in messages |
| `MessageModel`, `MessageCounters`, `MessageRuns`, `MessageAcks`, `MessageTexts`, `PostOffices`, `TotalOrder` | counters, acks, resends and duplicates over a lossy network, and what text arrives; delivery in timestamp order |
| `ThreadModel`, `ThreadProofs`, `ThreadRuns`, `ThreadOrders`, `ThreadLaws`, `Synch`, `SynchLists` | scheduler, semaphores, hand-off locks, Mesa condition variables, the monitor list |
| `Options`, `Lists`, `SimTime`, `TimeLaws`, `InterruptSystem` | optional values, the linked list, the clock and the pending interrupts |
| `Mult`, `DiskTiming` | the 32x32 multiplication, the disk's latency and track buffer |

`dafny verify dfyconfig.toml` checks everything.

## What the code does and does not keep

The model follows the code. Where the code misses what it is for, there is a concrete case and an exact condition.

- Dirty bits: `updateTLBFromIPT` and `Scheduler::Run` copy a slot's dirty bit to the IPT before the slot goes;
  `evictAPage`, Fork and Exec do not. `StoredByteIsLost` is a run that loses a write; `FaultKeepsMemoryIff` and
  `FlushKeepsMemoryIff` say exactly when one step loses nothing; `PagingRefinesFlatMemory` carries that as its
  premise, and `RepairedPagingRefinesFlatMemory` needs none, with the loop of `Scheduler::Run` added before those sites.
- Bytes of a page past the end of the executable are whatever the frame held before (`PageShowsOldBytes`); flat memory
  has them as unknown until they are written. Bytes of uninitialised data that share the last page read from the file are file bytes.
- `itoa` uses its loop bound unset from 1410065408 on, because `myexp(10)` overflows, and writes characters below '0'
  for a negative number (`ItoaReadsBackIff`).
- The member list reads back exactly when every ID fits its fixed width (`GroupRoundTripIff`).
- An ack is not recognised when its sender has an unacknowledged message under the ack's key (`AckRecognisedIff`): it
  then reads as a message without data. `AckIsTakenForMessage` is the run in which it is recorded as one, and
  `WrongTextIff` says exactly for which sets of messages that can happen; keys new in both directions exclude it.
- Timestamps handed on never decrease exactly when each message comes in time, that is not before the last one handed
  on (`OrderKeptIff`, `RunInOrderIff`, whatever the table), or waits (`HandedInOrderIff`). Messages in turn with every
  member heard from are in time (`HandedInOrder`); a silent row lets one come too late (`UnheardRowBreaksOrder`).
- The drain of the message queue indexes the member table by queue position, and throws past its end: it finishes
  exactly when it leaves no more messages than the table has rows (`PassHandsOnReady`, `FirstRowHoldsAll`). With one
  member silent that is one message more than the table has rows (`SilentMemberOverrunsIff`, `DrainThrows`).
- Broadcast with another lock than the remembered one and threads waiting never ends (`BroadcastEndsIff`).
- A timer that Idle puts back can fire a whole system tick late (`LateByATickIff`, `TimerFiresLate`).
- A track buffer hit may be reported while the sector is still passing (`HitByNowIff`, `HitDuringPass`); by the time
  the request completes it has passed.

What callers owe, as the code leaves it to them: accesses inside the page table (the fault handler does not check the
page number), file sizes up to `MaxFileSize` where the disk has room and positions and sizes that are not negative (a
request for zero or fewer bytes is handled), message times that make a key new, data sent that is not itself an ack, a
positive delay for every scheduled interrupt (an assertion in the source).

## Model

| member | source | states |
|---|---|---|
| `Paging.PagingMachine.FindIPTIndex` | nachos-csci402/code/userprog/exception.cc:744-758 | the search over the IPT gives the first frame holding the page of the current space, or -1 |
| `Paging.PagingMachine.DetachVictim` | nachos-csci402/code/userprog/exception.cc:761-801 | the victim is the head of the FIFO queue or the random frame; its TLB slot goes if it belongs to the current space, and nothing else changes |
| `Paging.PagingMachine.InvalidateFrameInTLB` | nachos-csci402/code/userprog/exception.cc:789-799 | exactly the first valid slot mapping the frame becomes invalid; its dirty bit goes nowhere |
| `Paging.PagingMachine.SaveIfDirty` | nachos-csci402/code/userprog/exception.cc:803-817 | a page the IPT has as dirty goes to its swap slot, allocated on first use; halts exactly when the swap file is full |
| `Paging.PagingMachine.EvictAPage` | nachos-csci402/code/userprog/exception.cc:761-820 | the whole eviction on the machine state: victim, TLB, swap slot, page table |
| `Paging.PagingMachine.ReadPage` | nachos-csci402/code/userprog/exception.cc:847-866 | the frame gets the executable's bytes (the frame's old bytes past the end of the file), the swap slot, or zeros; no other frame changes |
| `Paging.PagingMachine.LoadPageIntoIPT` | nachos-csci402/code/userprog/exception.cc:822-880 | the first free frame if there is one, an evicted one otherwise, filled, put behind the frames in the queue and recorded |
| `Paging.PagingMachine.UpdateTLBFromIPT` | nachos-csci402/code/userprog/exception.cc:883-905 | the outgoing slot's dirty bit reaches the IPT before the slot is loaded; the index goes round robin |
| `Paging.PagingMachine.HandlePageFault` | nachos-csci402/code/userprog/exception.cc:908-926 | the handler's whole effect on TLB, IPT, page table, swap, queue and frames |
| `Paging.PagingMachine.Translate` | nachos-csci402/code/machine/translate.cc:197-265 | alignment, TLB search, read-only and bus checks in order; use and dirty bits of the slot that hits |
| `Paging.PagingMachine.ReadMem` | nachos-csci402/code/machine/translate.cc:88-141 | one attempt: the widened bytes, or the exception handled and no value |
| `Paging.PagingMachine.WriteMem` | nachos-csci402/code/machine/translate.cc:143-194 | one attempt: exactly the addressed bytes of the frame change, or the exception is handled |
| `Paging.PagingMachine.Run` | nachos-csci402/code/threads/scheduler.cc:102-119 | every valid slot's dirty bit is copied to the IPT, all slots are invalid, the next space is current |
| `Paging.PagingMachine.InvalidateTLB` | nachos-csci402/code/userprog/exception.cc:509-515 | all slots invalid and nothing copied back |
| `Paging.PagingMachine.ForkThread` | nachos-csci402/code/userprog/exception.cc:486-517 | a function pointer outside memory is rejected and nothing changes; otherwise the page table grows by one stack, every old entry kept; then the flush |
| `Paging.PagingMachine.ExecProgram` | nachos-csci402/code/userprog/exception.cc:401-455 | the page table of a new address space, built entry by entry from the sizes in the header, then the flush |
| `Paging.PagingMachine.CopyinByte` | nachos-csci402/code/userprog/exception.cc:70-74 | the retry loop ends after at most one fault with the byte a fault-free read gives |
| `PagingProofs.EvictWf` | nachos-csci402/code/userprog/exception.cc:761-820 | an eviction that saves its page leaves one frame per page, no slot and no queue position for the victim, and swap slots unshared |
| `PagingProofs.InstallWf` | nachos-csci402/code/userprog/exception.cc:835-879 | a page put into a frame no slot maps restores the whole structure |
| `PagingProofs.UpdateTLBWf` | nachos-csci402/code/userprog/exception.cc:883-905 | after a refill every valid slot mirrors the current space's IPT entry and no virtual page is in two slots |
| `PagingProofs.SwapOutCoherent` | nachos-csci402/code/userprog/exception.cc:803-817 | saving a dirty page keeps every byte of every flat memory reachable |
| `PagingProofs.LoadPageCoherent` | nachos-csci402/code/userprog/exception.cc:822-880 | loading a page, with or without an eviction that loses nothing, keeps memory equal to the flat memories |
| `PagingProofs.FaultWf` | nachos-csci402/code/userprog/exception.cc:908-926 | every fault keeps the structure and maps the faulted page |
| `PagingProofs.FaultCoherent` | nachos-csci402/code/userprog/exception.cc:908-926 | a fault that drops no unseen dirty bit changes no byte of any flat memory |
| `PagingProofs.TranslateCoherent` | nachos-csci402/code/machine/translate.cc:197-265 | a translation, setting dirty bits, changes no byte of any flat memory |
| `PagingProofs.ReadAgrees` | nachos-csci402/code/machine/translate.cc:88-141 | a read that translates returns the flat bytes, sign-extended for bytes and not for halves |
| `PagingProofs.WriteAgrees` | nachos-csci402/code/machine/translate.cc:143-194 | a write that translates changes exactly those bytes of that space's flat memory |
| `PagingProofs.StoredThenLoaded` | nachos-csci402/code/machine/translate.cc:88-194 | what a load gives after a store of the same size: bytes sign-extended, halves zero-extended, words exact |
| `PagingProofs.SwitchCopies` | nachos-csci402/code/threads/scheduler.cc:102-114 | the flush leaves the IPT entry dirty exactly if the IPT or a slot had it dirty |
| `PagingProofs.SwitchCoherent` | nachos-csci402/code/threads/scheduler.cc:102-119 | a context switch changes no byte of any flat memory |
| `PagingProofs.ForkCoherent` | nachos-csci402/code/userprog/addrspace.cc:365-426 | stack growth adds zero bytes at the end of one flat memory and changes no other byte |
| `PagingProofs.ExecCoherent` | nachos-csci402/code/userprog/addrspace.cc:128-224 | a new space reads as its page table says, and the others are unchanged; NewSpaceStarts says what that is |
| `PagingRuns.NewSpaceStarts` | nachos-csci402/code/userprog/addrspace.cc:164-210 | a new space starts with byte codeStart + a of the file at each address a of its loaded pages, unknown past the end of the file, and with zeros in the others and the stack |
| `PagingRuns.StepKeepsStructure` | nachos-csci402/code/userprog/exception.cc:744-926 | every access, fault, dispatch, Fork and Exec keeps the structure, lost dirty bits or not |
| `PagingRuns.EveryRunKeepsStructure` | nachos-csci402/code/userprog/exception.cc:744-926 | at every point of every run: one frame per page, slots that mirror the IPT, a FIFO queue of exactly the frames in use, swap slots unshared |
| `PagingRuns.StepRefines` | nachos-csci402/code/machine/translate.cc:87-265 | a step that loses no dirty bit acts on the flat memories and on which space runs as a specification without page tables says |
| `PagingRuns.PagingRefinesFlatMemory` | nachos-csci402/code/userprog/exception.cc:744-926 | from start-up, on every run that drops no unseen dirty bit, every load returns the flat bytes |
| `PagingRuns.RetrySucceeds` | nachos-csci402/code/userprog/exception.cc:70-74 | the access that faulted does not fault again |
| `PagingOrders.FaultTakesOneFrame` | nachos-csci402/code/userprog/exception.cc:822-880 | a fault on an absent page takes exactly one frame, the first free one, else the oldest or the drawn one; every other frame keeps its page and bytes |
| `PagingOrders.EvictionIsFifo` | nachos-csci402/code/userprog/exception.cc:761-842 | over every run from start-up without random eviction, the frames evicted, in order, then the queue, are the frames filled, in order, both read off the change of the inverted page table |
| `PagingOrders.SlotsAreRoundRobin` | nachos-csci402/code/userprog/exception.cc:883-905 | over every run from start-up the n-th refill fills slot n modulo the size of the TLB, and nothing else fills one |
| `PagingOrders.SavedWhere` | nachos-csci402/code/userprog/exception.cc:803-817 | a dirty page is saved in the slot it has or the first free one, which it keeps; a clean page is saved nowhere |
| `PagingOrders.AccessOutcome` | nachos-csci402/code/userprog/exception.cc:803-817 | an access is done exactly when it is aligned and its page is in the TLB, and halts exactly when it is misaligned, or no frame is free and the victim is dirty, without a slot, and the swap file full |
| `PagingOrders.PageShowsOldBytes` | nachos-csci402/code/userprog/exception.cc:847-853 | past the end of the executable a loaded page shows what its frame held before |
| `PagingDirty.HitMarks` | nachos-csci402/code/machine/translate.cc:258-260 | a hit sets the use bit of its slot, the dirty bit if it writes, and changes no other slot |
| `PagingDirty.DirtyWasStored` | nachos-csci402/code/machine/translate.cc:258-260 | over every run from start-up a frame is dirty, in the inverted page table or the TLB, only if the page it holds was stored to |
| `PagingLimits.FaultKeepsMemoryIff` | nachos-csci402/code/userprog/exception.cc:787-801 | a fault keeps memory whatever the frames hold if and only if the slot it drops is not dirty for a frame the IPT has as clean |
| `PagingLimits.FlushKeepsMemoryIff` | nachos-csci402/code/userprog/exception.cc:509-515 | the flush of Fork and Exec keeps memory whatever the frames hold if and only if no valid slot is dirty for a clean IPT entry |
| `PagingLimits.StoredByteIsLost` | nachos-csci402/code/userprog/exception.cc:787-801 | a run from start-up that stores 7, touches the next page, and reads 0 back |
| `PagingRepair.CopiedBackKeepsMemory` | nachos-csci402/code/threads/scheduler.cc:108-112 | the copy-back loop alone changes no flat byte and leaves no dirty bit to lose |
| `PagingRepair.RepairedPagingRefinesFlatMemory` | nachos-csci402/code/userprog/exception.cc:787-801 | with that loop before every fault, Fork and Exec, every run returns the flat bytes, without any premise on dirty bits |
| `Bytes.DecodeEncode` | nachos-csci402/code/machine/translate.cc:143-194 | little-endian bytes of a value read back as the value modulo 256 to the size |
| `BitMaps.OneBitChanges` | nachos-csci402/code/userprog/bitmap.cc:46-80 | setting or clearing a bit of a word changes that bit alone |
| `BitMaps.MarkWord` | nachos-csci402/code/userprog/bitmap.cc:46-65 | updating one word changes exactly one bit of the whole map |
| `BitMaps.BitMap.constructor` | nachos-csci402/code/userprog/bitmap.cc:20-30 | every bit is clear, whatever the memory held |
| `BitMaps.BitMap.Mark` | nachos-csci402/code/userprog/bitmap.cc:46-52 | exactly the one bit is set |
| `BitMaps.BitMap.Clear` | nachos-csci402/code/userprog/bitmap.cc:60-66 | exactly the one bit is cleared |
| `BitMaps.BitMap.Test` | nachos-csci402/code/userprog/bitmap.cc:74-83 | the bit |
| `BitMaps.BitMap.Find` | nachos-csci402/code/userprog/bitmap.cc:94-103 | takes and sets the first clear bit; -1 and no change when there is none |
| `BitMaps.BitMap.NumClear` | nachos-csci402/code/userprog/bitmap.cc:111-119 | the number of clear bits |
| `DiskFiles.HeaderRoundTrip` | nachos-csci402/code/filesys/filehdr.cc:77-95 | a header written to its sector and fetched is the same header |
| `DiskFiles.TakeClearTakesClear` | nachos-csci402/code/filesys/filehdr.cc:41-53 | the sectors an allocation takes were clear, are distinct, and are exactly what the map gains |
| `DiskFiles.TakeClearInOrder` | nachos-csci402/code/userprog/bitmap.cc:94-103 | the sectors taken rise, and every sector left clear lies behind all of them |
| `DiskFiles.FileHeader.Allocate` | nachos-csci402/code/filesys/filehdr.cc:41-53 | succeeds exactly when enough bits are clear and then takes the first ones in order; on failure, of any size, the map is unchanged |
| `DiskFiles.FileHeader.Deallocate` | nachos-csci402/code/filesys/filehdr.cc:61-68 | clears exactly the file's sectors; the assertion that each is marked holds |
| `DiskFiles.Clipped` | nachos-csci402/code/filesys/openfile.cc:122-128 | a transfer is empty exactly for an empty request or one past the end; otherwise it is the whole request, or all the file has from there on |
| `OpenFiles.OpenFile.ReadAt` | nachos-csci402/code/filesys/openfile.cc:117-145 | exactly the clipped bytes of the file at the position; nothing else of the buffer changes |
| `OpenFiles.OpenFile.ReadEnds` | nachos-csci402/code/filesys/openfile.cc:164-176 | the two conditional reads leave every byte of the touched sectors that the write must keep in the buffer |
| `OpenFiles.OpenFile.FillBuffer` | nachos-csci402/code/filesys/openfile.cc:164-179 | the buffer holds the file as it is to be after the write |
| `OpenFiles.WriteBackWrites` | nachos-csci402/code/filesys/openfile.cc:181-184 | writing the buffer back changes exactly the bytes of the request, and only the sectors it touches |
| `OpenFiles.OpenFile.WriteAt` | nachos-csci402/code/filesys/openfile.cc:147-187 | for every position, length and alignment: the file's bytes at the position, clipped to its length, are the data, its other bytes and every untouched sector are as before |
| `OpenFiles.OpenFile.Read` | nachos-csci402/code/filesys/openfile.cc:75-81 | the bytes at the seek position, which moves past them |
| `OpenFiles.OpenFile.Write` | nachos-csci402/code/filesys/openfile.cc:83-89 | the write at the seek position, which moves past it |
| `OpenFiles.OtherFileUntouched` | nachos-csci402/code/filesys/openfile.cc:147-187 | a file that shares no sector reads the same, byte for byte |
| `Directories.SameNameIsSameKey` | nachos-csci402/code/filesys/directory.cc:94-97 | comparing nine characters with strncmp identifies exactly the names with the same characters up to a NUL, nine at most |
| `Directories.KeyIsPrefix` | nachos-csci402/code/filesys/directory.cc:94-97 | a name is identified by its first nine characters, or all when it has fewer |
| `Directories.CopiedKey` | nachos-csci402/code/filesys/directory.cc:137-140 | the copied name has the key of the given one, whatever the entry held before |
| `Directories.TableRoundTrip` | nachos-csci402/code/filesys/directory.cc:63-80 | a directory written and fetched is the same table |
| `Directories.Directory.FindIndex` | nachos-csci402/code/filesys/directory.cc:90-98 | the first used entry with the name, or -1 |
| `Directories.Directory.Add` | nachos-csci402/code/filesys/directory.cc:129-144 | fails exactly for a listed name or a full table and then changes nothing; else enters the name in the first unused entry |
| `Directories.Directory.Remove` | nachos-csci402/code/filesys/directory.cc:153-163 | the entry becomes unused, and nothing else; fails exactly when the name is not listed |
| `FileSystemProofs.AllocatedHeader` | nachos-csci402/code/filesys/filehdr.cc:41-53 | an allocation gives a well-formed header over clear sectors and the map gains exactly those |
| `FileSystemProofs.CreateKeepsInv` | nachos-csci402/code/filesys/filesys.cc:174-216 | after a Create the set bits are again exactly the sectors of the system files and the listed files, each in one file, no name twice |
| `FileSystemProofs.CreateAddsOneFile` | nachos-csci402/code/filesys/filesys.cc:174-216 | Create adds one name with the size asked for; every other file has its bytes |
| `FileSystemProofs.CreatedBytes` | nachos-csci402/code/filesys/filesys.cc:174-216 | a created file reads as what its sectors held before |
| `FileSystemProofs.CanCreateMeans` | nachos-csci402/code/filesys/filesys.cc:188-203 | Create can succeed exactly when the name is new, an entry is unused, and one more sector is clear than the data needs |
| `FileSystemCapacity.ClearSectorsAreTheRest` | nachos-csci402/code/filesys/filesys.cc:174-288 | on every consistent disk the clear sectors are all but the five of the system files and, for each file, a header and its data sectors |
| `FileSystemCapacity.CanCreateIffRoom` | nachos-csci402/code/filesys/filesys.cc:188-203 | a Create succeeds if and only if the name is new, fewer than ten files exist and the sectors the files leave are enough: a matter of the map of files alone |
| `FileSystemCapacity.DirectoryFillsFirst` | nachos-csci402/code/filesys/filesys.cc:188-203 | for sizes up to MaxFileSize the directory always fills before the disk: a Create succeeds if and only if the name is new and fewer than ten files exist |
| `FileSystemProofs.RemoveKeepsInv` | nachos-csci402/code/filesys/filesys.cc:257-288 | after a Remove the same invariant holds |
| `FileSystemProofs.RemoveDeletesOneFile` | nachos-csci402/code/filesys/filesys.cc:257-288 | Remove deletes one name; every other file has its bytes |
| `FileSystemProofs.ListedSectorsAreMarked` | nachos-csci402/code/filesys/filehdr.cc:61-68 | every sector of a listed file is marked, so Deallocate's assertion never fires |
| `FileSystemProofs.CreateThenRemoveRestores` | nachos-csci402/code/filesys/filesys.cc:174-288 | Create then Remove of the name gives back the free map and the files |
| `FileSystemProofs.WriteChangesOneFile` | nachos-csci402/code/filesys/openfile.cc:147-187 | writing to a listed file changes that file's bytes where it writes, and no header, map, directory or other file |
| `FileSystems.DirectoryWritten` | nachos-csci402/code/filesys/directory.cc:76-80 | writing the directory file sets the stored directory and leaves the stored map, which lies on the same disk |
| `FileSystems.MapWritten` | nachos-csci402/code/userprog/bitmap.cc:161-165 | writing the bitmap file sets the stored map and leaves the stored directory |
| `FileSystems.FetchMap` | nachos-csci402/code/userprog/bitmap.cc:148-152 | the map read from its file is the stored map |
| `FileSystems.Format` | nachos-csci402/code/filesys/filesys.cc:82-127 | on any garbage the format leaves a consistent disk with no file and exactly the first five sectors taken |
| `FileSystems.FileSystem.constructor` | nachos-csci402/code/filesys/filesys.cc:79-144 | a formatted or a mounted disk; mounting changes nothing |
| `FileSystems.FileSystem.Create` | nachos-csci402/code/filesys/filesys.cc:174-216 | succeeds exactly when it can, and for any size fails exactly when it cannot; a failed Create leaves the disk as it was |
| `FileSystems.FileSystem.FlushCreate` | nachos-csci402/code/filesys/filesys.cc:205-207 | header, directory and map go to disk in that order and leave the disk a successful Create describes |
| `FileSystems.FileSystem.Open` | nachos-csci402/code/filesys/filesys.cc:227-242 | a file exactly for a listed name, holding that file's bytes |
| `FileSystems.FileSystem.Remove` | nachos-csci402/code/filesys/filesys.cc:257-288 | succeeds exactly for a listed name; a failed Remove leaves the disk as it was |
| `FileSystems.StepRefinesMap` | nachos-csci402/code/filesys/filesys.cc:174-288 | each operation on a consistent disk leaves a consistent one and acts on the map from names to bytes as the specification says, a Create exactly when the map has room |
| `FileSystems.FileSystemRefinesMap` | nachos-csci402/code/filesys/filesys.cc:174-288 | over every run of Create, Remove and writes from one consistent disk, every disk is consistent, by induction, and the files evolve as the map specification says |
| `Texts.AtoiIntText` | nachos-csci402/code/network/netcall.cc:231-255 | what printf writes for an int, atoi reads as that int |
| `Texts.ParseValueLoop` | nachos-csci402/code/network/netcall.cc:231-255 | the number up to the first underscore or the end, and the index after it |
| `Texts.FrameParses` | nachos-csci402/code/network/post.cc:369 | parseValue undoes the framing of number, underscore, data |
| `Texts.MyExpLoop` | nachos-csci402/code/network/netcall.cc:3013-3019 | the power of ten in 32-bit ints, which wraps at ten |
| `Texts.Itoa` | nachos-csci402/code/network/netcall.cc:3021-3044 | the characters written, into any array they fit in, and whether the loop bound was set before its use |
| `Texts.ItoaReadsBackIff` | nachos-csci402/code/network/netcall.cc:3021-3044 | the text reads back as the argument if and only if it is from 0 to 1410065407 |
| `Texts.ItoaHasNoLeadingZero` | nachos-csci402/code/network/netcall.cc:3021-3044 | the text has no leading zero, so for a number that reads back it is the one printf writes |
| `GroupInfo.BuildMessages` | nachos-csci402/code/threads/system.cc:268-277 | the loops of the registration server build the messages of eight members at most |
| `GroupInfo.ParseGroupLoop` | nachos-csci402/code/threads/system.cc:467-490 | the loop of a network thread reads three characters a member |
| `GroupInfo.MessageCount` | nachos-csci402/code/threads/system.cc:247-248 | as many messages as the server announces |
| `GroupInfo.GroupRoundTripIff` | nachos-csci402/code/threads/system.cc:268-294 | every thread parses the server's list if and only if each machine ID is below 10 and each mail ID below 100 |
| `PostOffices.NetThread.CountSend` | nachos-csci402/code/network/post.cc:337-366 | the next counter for the peer, 0 on first contact |
| `PostOffices.NetThread.CountReceive` | nachos-csci402/code/network/post.cc:441-499 | which mails Receive returns, and the counters after it |
| `PostOffices.NetThread.MessageIsRedundant` | nachos-csci402/code/threads/system.cc:139-155 | whether the key is on the list of received messages |
| `PostOffices.PostOffice.SendMail` | nachos-csci402/code/network/post.cc:287-413 | a listed message goes out as it is and counts as sent now; a new one is framed with its counter and listed with its own time; an ack is framed with -1 and not listed |
| `PostOffices.PostOffice.Receive` | nachos-csci402/code/network/post.cc:431-510 | skips exactly the mails with a counter above 0 from threads not yet heard from, and returns the first other |
| `PostOffices.PostOffice.ProcessAck` | nachos-csci402/code/network/netcall.cc:84-115 | exactly the entry the ack answers goes, with its time |
| `PostOffices.PostOffice.Ack` | nachos-csci402/code/network/netcall.cc:117-180 | a message of the thread itself or its pair is dropped from the list; any other is answered by a packet |
| `PostOffices.PostOffice.Turn` | nachos-csci402/code/threads/system.cc:586-636 | one turn of the main loop: process an ack, or acknowledge, drop what was received before, else record and handle once |
| `PostOffices.PostOffice.ResendOverdue` | nachos-csci402/code/threads/system.cc:103-136 | exactly the entries last sent more than two seconds ago go out again, in order and unchanged, and count as sent now; the list is as before |
| `PostOffices.OverdueEntriesAre` | nachos-csci402/code/threads/system.cc:103-136 | what a pass of the resend thread sends is the entries at exactly the positions last sent more than two seconds ago, each once and in order |
| `MessageCounters.NextCounterIsNumberSent` | nachos-csci402/code/network/post.cc:345-366 | the counter of a new message is the number of earlier ones to that peer, whatever else was sent |
| `MessageCounters.InOrderIsAccepted` | nachos-csci402/code/network/post.cc:447-494 | mails of any senders in their order of sending are all returned and leave the receiver with the senders' numbers |
| `MessageCounters.DiscardedIff` | nachos-csci402/code/network/post.cc:447-494 | after any mails, lost, repeated or out of order, the next is discarded if and only if its number is above 0 and no first mail of its sender has come |
| `MessageCounters.OutOfOrderChangesNothing` | nachos-csci402/code/network/post.cc:461-474 | a mail changes a counter if and only if it is its sender's next |
| `MessageRuns.SendKeepsInv` | nachos-csci402/code/network/post.cc:287-413 | a new message, whatever its peer has sent, keeps the invariant |
| `MessageRuns.ResendKeepsInv` | nachos-csci402/code/threads/system.cc:103-136 | a resend keeps the invariant |
| `MessageRuns.TakeKeepsInv` | nachos-csci402/code/threads/system.cc:586-602 | taking any packet ever sent, any number of times, keeps the invariant: an entry is dropped only for a message that has arrived |
| `MessageRuns.HandleKeepsInv` | nachos-csci402/code/threads/system.cc:604-636 | recording and handling keeps the invariant |
| `MessageRuns.AtMostOnceAndNoneLost` | nachos-csci402/code/threads/system.cc:575-636 | in every run whose messages have distinct keys no message is processed or queued twice, and every message sent is still to be resent or has reached its thread |
| `MessageRuns.EveryMessageCanStillArrive` | nachos-csci402/code/network/post.cc:481-499 | in every such state each message sent is recorded after at most two deliveries, its sender's first contact and itself, and with its own data if it was not recorded before |
| `MessageRuns.RecordedTextIsSent` | nachos-csci402/code/threads/system.cc:604-636 | in every run the text a thread records under a key is the data sent under it, or empty under an ambiguous key |
| `MessageRuns.AckRecognisedIff` | nachos-csci402/code/network/post.cc:315-388 | an ack is recognised if and only if its sender has no message of its own unacknowledged under the ack's key |
| `MessageAcks.AckDropsMessage` | nachos-csci402/code/threads/system.cc:594-599 | in every run an ack that is taken takes the message it answers, which was sent, off its machine's list |
| `MessageAcks.LocalMessageIsDropped` | nachos-csci402/code/network/netcall.cc:117-158 | an accepted message of the thread itself or its pair, a mailbox next to its own, is off the list at once |
| `MessageAcks.MessageIsAnswered` | nachos-csci402/code/network/netcall.cc:117-180 | any other accepted message is answered under its reversed key, by an ack, bare exactly when a message is listed under that key |
| `MessageAcks.AcknowledgedStays` | nachos-csci402/code/threads/system.cc:103-136 | over every run a message that was taken off the list is never resent |
| `MessageAcks.EveryMessageCanBeAcknowledged` | nachos-csci402/code/threads/system.cc:586-602 | from every such state each message whose reverse is not sent can be delivered and acknowledged in at most four steps |
| `MessageTexts.AckIsTakenForMessage` | nachos-csci402/code/network/post.cc:315-388 | for every ambiguous key a run from start-up: a thread sends r, its peer sends the reverse of r, and the bare ack for that one is recorded as message r without data |
| `MessageTexts.WrongTextIff` | nachos-csci402/code/network/post.cc:315-388 | threads that send given messages can record a wrong text for one of them if and only if its key is ambiguous: its peer sends one with the same timestamp, its sender another one to the same thread, and the two are not acknowledged locally |
| `MessageTexts.FreshInBothDirections` | nachos-csci402/code/threads/system.cc:604-636 | in every run whose keys are new in both directions every recorded text is the one sent |
| `TotalOrder.Orderer.Process` | nachos-csci402/code/threads/system.cc:644-719 | the four steps on table and queue, and whether the pass finished |
| `TotalOrder.Orderer.HandOn` | nachos-csci402/code/threads/system.cc:696-719 | the drain loop, with its index into the member table |
| `TotalOrder.InsertedSorted` | nachos-csci402/code/threads/system.cc:655-678 | insertion keeps the queue in timestamp order |
| `TotalOrder.EarliestIsLeast` | nachos-csci402/code/threads/system.cc:680-694 | with all members heard from the earliest timestamp is the least of the table |
| `TotalOrder.EarliestIsAmong` | nachos-csci402/code/threads/system.cc:680-694 | with any table the earliest timestamp is the first row's or that of a row heard from |
| `TotalOrder.NoneLostOrDoubled` | nachos-csci402/code/threads/system.cc:655-719 | over every run, in turn or not, each message is handed on once or still queued |
| `TotalOrder.TableIsLastHeard` | nachos-csci402/code/threads/system.cc:644-653 | over every run each member's row holds the timestamp it was last heard with |
| `TotalOrder.PassHandsOnReady` | nachos-csci402/code/threads/system.cc:696-719 | a pass hands on exactly the messages not after the earliest timestamp, in order, and finishes if and only if it leaves no more than the table has rows |
| `TotalOrder.FirstRowHoldsAll` | nachos-csci402/code/threads/system.cc:700 | until the first member is heard from, no message with a positive timestamp is handed on, and the pass finishes if and only if the queue is no longer than the table |
| `TotalOrder.ArrivalKeepsOrder` | nachos-csci402/code/threads/system.cc:644-719 | a message in turn keeps everything handed on in order and leaves nothing at or before the earliest timestamp |
| `TotalOrder.HandedInOrder` | nachos-csci402/code/threads/system.cc:644-719 | over every run in turn with every member heard from, the timestamps handed on never decrease and nothing ready waits |
| `TotalOrder.OrderKeptIff` | nachos-csci402/code/threads/system.cc:644-719 | for any table, sender and time, history and queue stay in order if and only if the message only updates the table or is not before the last one handed on |
| `TotalOrder.HandedInOrderIff` | nachos-csci402/code/threads/system.cc:644-719 | for any table the timestamps handed on stay in order if and only if the message is in time or waits, because the first row is silent or the message is after the earliest timestamp |
| `TotalOrder.RunInOrderIff` | nachos-csci402/code/threads/system.cc:644-719 | over every run, with any table, history and queue end in order if and only if they began so and every message came in time |
| `TotalOrder.SilentMemberOverrunsIff` | nachos-csci402/code/threads/system.cc:696-719 | while one member is silent, the others' later messages are all handled if and only if no more of them are queued than the table has rows |
| `TotalOrder.DrainThrows` | nachos-csci402/code/threads/system.cc:696-719 | two members heard from and a silent third: the fourth message of one of them runs off the table |
| `TotalOrder.UnheardRowBreaksOrder` | nachos-csci402/code/threads/system.cc:680-694 | a member not heard from lets a later message pass before its own, which is then not in time |
| `Synch.Scheduler.FindNextToRun` | nachos-csci402/code/threads/scheduler.cc:70-74 | the front of the ready list, removed |
| `Synch.Scheduler.Sleep` | nachos-csci402/code/threads/thread.cc:211-226 | the front of the ready list runs, or the processor idles |
| `Synch.Scheduler.Yield` | nachos-csci402/code/threads/thread.cc:174-189 | the thread goes behind the ready ones, or runs on when none is ready |
| `Synch.Semaphore.P` | nachos-csci402/code/threads/synch.cc:64-77 | takes a unit, or queues and sleeps |
| `Synch.Semaphore.V` | nachos-csci402/code/threads/synch.cc:87-99 | adds a unit and readies the longest waiter |
| `Synch.Lock.Acquire` | nachos-csci402/code/threads/synch.cc:120-150 | takes a free lock, returns when already the owner, else queues and sleeps |
| `Synch.Lock.Release` | nachos-csci402/code/threads/synch.cc:152-185 | the owner hands over to the longest waiter or frees the lock; another's call changes nothing |
| `Synch.Condition.Wait` | nachos-csci402/code/threads/synch.cc:210-251 | accepted exactly with a lock that matches; then queues, releases and sleeps |
| `Synch.Condition.Signal` | nachos-csci402/code/threads/synch.cc:253-286 | readies exactly the oldest waiter, and forgets the lock with the last |
| `Synch.Condition.Broadcast` | nachos-csci402/code/threads/synch.cc:288-294 | readies exactly the waiters, oldest first |
| `ThreadProofs.StepKeepsInv` | nachos-csci402/code/threads/synch.cc:64-286 | every step of every thread keeps the invariant |
| `ThreadRuns.EveryRunIsSafe` | nachos-csci402/code/threads/synch.cc:120-286 | under every interleaving: each live thread in exactly one place once, a lock free exactly with no owner and then no waiters, never two holders, the remembered lock there exactly while threads wait |
| `ThreadRuns.ReleaseHandsOver` | nachos-csci402/code/threads/synch.cc:166-181 | the longest waiter is owner and ready, in one step |
| `ThreadRuns.HandOffIsKept` | nachos-csci402/code/threads/synch.cc:166-174 | no thread gets the lock between the hand-over and its new owner's run |
| `ThreadOrders.HandOffOverRun` | nachos-csci402/code/threads/synch.cc:152-185 | from the Release that hands a lock over, through every run until its new owner gets the processor, that thread owns the lock and is ready, no other holds it, and its next step makes it hold the lock |
| `ThreadRuns.LockQueueIsFifo` | nachos-csci402/code/threads/synch.cc:120-185 | in one step a lock's waiters leave in front as the new owner, or join at the back by an Acquire or on the way back from Wait |
| `ThreadOrders.LockIsFifo` | nachos-csci402/code/threads/synch.cc:120-251 | over every run the threads a lock is granted to, then those that still wait, are those that waited at first, then those that came, in order |
| `ThreadRuns.SignalWakesOldest` | nachos-csci402/code/threads/synch.cc:253-286 | who is readied, and when nothing happens |
| `ThreadRuns.WaitIsAtomic` | nachos-csci402/code/threads/synch.cc:240-245 | queued and without the lock in one step |
| `ThreadRuns.WaitersLeaveBySignal` | nachos-csci402/code/threads/synch.cc:210-286 | a waiter stays queued in its order until a Signal with the remembered lock readies it |
| `ThreadOrders.CondQueueIsFifo` | nachos-csci402/code/threads/synch.cc:210-286 | over every run the threads a condition variable wakes, then those that still wait, are those that waited at first, then those that came, in order: none lost or overtaken |
| `ThreadRuns.BroadcastWakesAll` | nachos-csci402/code/threads/synch.cc:288-294 | undisturbed, as many Signals as waiters ready exactly them in order |
| `ThreadOrders.BroadcastInterleaved` | nachos-csci402/code/threads/synch.cc:288-294 | under any interleaving in which the caller owns the lock and only its owners wait, the Signals wake a front part of the waiters in order, and after as many as waited exactly all of them |
| `ThreadOrders.BroadcastSeesAll` | nachos-csci402/code/threads/synch.cc:288-294 | under any interleaving the queue is empty if and only if those that waited at first were woken, in order, and then exactly those that came meanwhile |
| `ThreadRuns.BroadcastEndsIff` | nachos-csci402/code/threads/synch.cc:288-294 | the loop ends if and only if nobody waits or the lock is the remembered one |
| `ThreadRuns.StepKeepsUnits` | nachos-csci402/code/threads/synch.cc:64-99 | while threads wait on a semaphore each unit has a readied thread to take it |
| `ThreadLaws.UnitsMove` | nachos-csci402/code/threads/synch.cc:64-99 | a P comes back exactly when there is a unit, and takes it; a V adds one; nothing else changes the value |
| `ThreadLaws.UnitsAreConserved` | nachos-csci402/code/threads/synch.cc:64-99 | over every run, value at the end and P calls that came back equal value at the start and Vs |
| `ThreadLaws.SemaphoreExcludes` | nachos-csci402/code/threads/synch.cc:64-99 | a semaphore of value one excludes: in every run in which only a thread inside calls V at most one thread is inside, once |
| `ThreadLaws.SemaphoreIsFifo` | nachos-csci402/code/threads/synch.cc:64-99 | over every run the threads Vs ready, then those that wait, are those that waited at first, then those that went to sleep in P, in order |
| `ThreadLaws.ReadyListIsFifo` | nachos-csci402/code/threads/scheduler.cc:54-74 | over every run the processor goes to threads in the order in which they became ready |
| `ThreadLaws.AcquireComesBackHolding` | nachos-csci402/code/threads/synch.cc:120-251 | a thread comes back from Acquire or Wait exactly when no other owns the lock, and then holds it and runs on; otherwise it sleeps behind the waiters |
| `ThreadLaws.HeldChanges` | nachos-csci402/code/threads/synch.cc:120-251 | the history of who holds a lock changes exactly by coming back from Acquire and by giving the lock up |
| `SynchLists.TakeFindsItem` | nachos-csci402/code/threads/synchlist.cc:70-82 | Remove never takes from an empty list |
| `SynchLists.StartIsOK` | nachos-csci402/code/threads/synchlist.cc:24-30 | an empty list nobody uses meets the monitor's invariant |
| `SynchLists.MoveKeepsInv` | nachos-csci402/code/threads/synchlist.cc:53-82 | every move of every producer and consumer keeps the monitor's invariant |
| `SynchLists.ListIsFifo` | nachos-csci402/code/threads/synchlist.cc:53-82 | over every run, items removed then items held are the items appended; while a consumer waits no item lies without one coming for it |
| `Lists.List.Append` | nachos-csci402/code/threads/list.cc:76-88 | the element is last |
| `Lists.List.Prepend` | nachos-csci402/code/threads/list.cc:102-114 | the element is first |
| `Lists.List.SortedInsert` | nachos-csci402/code/threads/list.cc:178-203 | the element is before the first larger key, the order of the others kept |
| `Lists.List.SortedRemove` | nachos-csci402/code/threads/list.cc:217-237 | the first element and its key, and the rest |
| `Lists.InsertedIsSorted` | nachos-csci402/code/threads/list.cc:178-203 | insertion keeps a sorted list sorted and goes behind equal keys |
| `InterruptSystem.Hardware.CheckAndFire` | nachos-csci402/code/machine/interrupt.cc:304-359 | the first pending interrupt is fired, put back, or left alone as the timer |
| `InterruptSystem.Hardware.FireDue` | nachos-csci402/code/machine/interrupt.cc:178-179 | the drain loop ends though handlers schedule more |
| `InterruptSystem.Hardware.Tick` | nachos-csci402/code/machine/interrupt.cc:152-189 | one tick: clock, drain, and whether to yield |
| `InterruptSystem.Hardware.IdleUntilInterrupt` | nachos-csci402/code/machine/interrupt.cc:220-243 | time goes on to the next interrupt, or the machine halts |
| `SimTime.FireLeavesFewerDue` | nachos-csci402/code/machine/interrupt.cc:275-287 | a handler called while the clock stands leaves one interrupt fewer due |
| `SimTime.DrainKeeps` | nachos-csci402/code/machine/interrupt.cc:178-179 | a drain keeps list and history in order and leaves nothing due, but a lone timer while idle |
| `SimTime.IdleKeepsInv` | nachos-csci402/code/machine/interrupt.cc:220-243 | what Idle fires is not late; the machine halts exactly with nothing pending or the timer alone |
| `SimTime.TimeIsOrderly` | nachos-csci402/code/machine/interrupt.cc:152-359 | over every run the ticks add up, the list is sorted, handlers fire in order of their due times, never early and at most one system tick late, a whole tick only the timer |
| `SimTime.LateByATickIff` | nachos-csci402/code/machine/interrupt.cc:335-340 | a tick fires something a whole system tick late if and only if an interrupt was due already before a tick in system mode |
| `SimTime.TimerFiresLate` | nachos-csci402/code/machine/interrupt.cc:335-340 | a run in which it happens |
| `TimeLaws.InterruptsAreConserved` | nachos-csci402/code/machine/interrupt.cc:275-359 | over every run each interrupt asked for, by a device or a handler, was fired once or is pending, with its time |
| `TimeLaws.TicksAreCharged` | nachos-csci402/code/machine/interrupt.cc:155-166 | over every run each tick is charged to the mode it passes in, ten for the kernel and one for a user program, and no yield is left over |
| `TimeLaws.YieldsIffAsked` | nachos-csci402/code/machine/interrupt.cc:178-188 | after every run a tick makes the running thread yield if and only if a handler it fires asks for it |
| `Mult.MultiplyUnsigned` | nachos-csci402/code/machine/mipssim.cc:658-677 | the shift-and-add loop, early break and carry included, gives the product of the operands' bits |
| `Mult.Complement` | nachos-csci402/code/machine/mipssim.cc:681-687 | the two's complement of the double word |
| `Mult.Multiply` | nachos-csci402/code/machine/mipssim.cc:634-691 | hi and lo are the exact 64-bit product, signed or unsigned, for every pair of operands |
| `DiskTiming.SeekIsDistance` | nachos-csci402/code/machine/disk.cc:180-184 | the seek takes one seek time a track between, in either direction |
| `DiskTiming.DiskArm.TimeToSeek` | nachos-csci402/code/machine/disk.cc:179-195 | seek time by tracks, and the time to the next sector boundary |
| `DiskTiming.DiskArm.ComputeLatency` | nachos-csci402/code/machine/disk.cc:232-254 | without a hit the end of the first full pass from the end of the seek; a hit exactly for a read on the track whose sector passes in full by the next boundary |
| `DiskTiming.DiskArm.UpdateLast` | nachos-csci402/code/machine/disk.cc:261-271 | the buffer starts over exactly when the track changes |
| `DiskTiming.DiskArm.Request` | nachos-csci402/code/machine/disk.cc:115-153 | requests one after another keep the buffer's start behind them, take at most 31999 ticks, and a hit's sector has passed in full by completion |
| `DiskTiming.MaxLatencyReached` | nachos-csci402/code/machine/disk.cc:232-254 | the bound is reached |
| `DiskTiming.HitByNowIff` | nachos-csci402/code/machine/disk.cc:241-246 | a hit's sector has passed by now if and only if its first pass does not end at a boundary still to come |

## Left out

- Host I/O, the console, sockets, assembly and debug output: no meaning inside the model. The disk is an array of sectors and the network a set of packets.
- Integer widths: tick counts, message counters and disk times are unbounded, so the model says nothing about their overflow; multiplication, `itoa` and `myexp` have 32-bit ints explicitly.
- Page faults are atomic steps: the lock around them is commented out in the source, and a switch inside a handler is not modelled.
- Address spaces are never freed, as in the source, and executables are taken not to change while they are mapped; page-table fields the TLB code never reads are not kept.
- TotalOrder and MessageModel share one thread's turn: `PostOffices.PostOffice.Turn` ends where a message is handled, and `TotalOrder.Orderer.Process` takes it from there. The timestamp messages a turn sends are separate send steps.
- The resend thread's check and send of one entry are one step; the source gives up the list's lock inside, so an entry acknowledged in between could be sent as a new message.
- Paging.PagingMachine.ReadMem: the time a frame was last used is not kept; the source sets it on every access, and paging never reads it.
- Paging.PagingMachine.WriteMem: the time a frame was last used is not kept, as for reads.
- Paging.PagingMachine.ExecProgram: copying the file's name, opening it and reading its header come before the model's step, which takes the sizes the header gives.
- PostOffices.PostOffice.Turn: the timestamp messages a turn sends and the processing itself are other steps.
- MessageRuns.AtMostOnceAndNoneLost: only the main loop of network threads receives; the receive loops of user threads (`Request`) and of registration acknowledge without recording and are not modelled.
- PagingRuns.PagingRefinesFlatMemory: carries the premise on dirty bits that the code as it is needs; RepairedPagingRefinesFlatMemory has none.
- TotalOrder.HandedInOrder: takes each member's messages as arriving in order, with every member heard from, since Receive does not enforce it; RunInOrderIff needs neither.
- FileSystems.FileSystem.Create: a size above `MaxFileSize` for which the disk has room runs past the header's table in the source and is excluded; one for which it has none fails as in the source.
- Mail sizes and mailbox numbers: the source asserts that a framed message fits a packet and that its box exists; the model has no such bounds.
- The text of a mail is a string without its terminator; what lies behind the terminator in a buffer is taken as empty.
- Files opened before their Remove: an open file keeps its own header, and writes through it after a Remove are not modelled.
- Padding bytes of directory entries are written as zero; entries hold a one-byte flag, a word and ten characters.
- SynchList, and calls that sleep: an object's method ends at the sleep, and the rest of the call is a step of the thread model. SynchList is modelled by the steps of its callers, and Mapcar is left out.
- Freeing memory, thread stacks, priorities and names.
- The non-TLB and stub file system branches, the distributed create-verify protocol, the lock and condition servers, and the restaurant simulation: thin, duplicate, or without a single promise to prove.
- MIPS instructions other than multiplication: one-branch facts.

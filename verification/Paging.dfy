/** The paging code of the kernel and of the simulated hardware, in the form of the source:
    fields updated in place, searches and flushes by loop. Each method is proved equal to a function of PagingModel. */
module Paging {
  import opened BitMaps
  import opened Bytes
  import opened Options
  import opened PagingModel
  import PagingProofs
  import PagingRuns

  /** The bytes of frame `f` in physical memory. */
  function PageAt(mem: seq<Byte>, f: nat): (p: Page)
    requires (f + 1) * PAGE_SIZE <= |mem|
  {
    mem[f * PAGE_SIZE..(f + 1) * PAGE_SIZE]
  }

  /** Physical memory, frame by frame. */
  function FramesOf(mem: seq<Byte>, n: nat): (r: seq<Page>)
    requires |mem| == n * PAGE_SIZE
    ensures |r| == n && forall f :: 0 <= f < n ==> r[f] == PageAt(mem, f)
  {
    seq<Page>(n, f requires 0 <= f < n => PageAt(mem, f))
  }

  lemma PageSlice(mem: seq<Byte>, n: nat, pa: nat, size: nat)
    requires |mem| == n * PAGE_SIZE && pa / PAGE_SIZE < n && pa % PAGE_SIZE + size <= PAGE_SIZE
    ensures pa + size <= |mem|
    ensures var f, o := pa / PAGE_SIZE, pa % PAGE_SIZE;
            mem[pa..pa + size] == FramesOf(mem, n)[f][o..o + size]
  {
    var f, o := pa / PAGE_SIZE, pa % PAGE_SIZE;
    assert pa == f * PAGE_SIZE + o;
    var bytes, inFrame := mem[pa..pa + size], FramesOf(mem, n)[f][o..o + size];
    forall k | 0 <= k < size ensures bytes[k] == inFrame[k] {
      assert FramesOf(mem, n)[f][o + k] == PageAt(mem, f)[o + k] == mem[f * PAGE_SIZE + (o + k)];
    }
  }

  /** Writing inside one frame changes that frame only. */
  lemma FrameWritten(mem: seq<Byte>, mem': seq<Byte>, n: nat, f: nat, o: nat, bytes: seq<Byte>)
    requires |mem| == |mem'| == n * PAGE_SIZE && f < n && o + |bytes| <= PAGE_SIZE
    requires forall a :: 0 <= a < |mem| ==>
      mem'[a] == if f * PAGE_SIZE + o <= a < f * PAGE_SIZE + o + |bytes| then bytes[a - f * PAGE_SIZE - o] else mem[a]
    ensures FramesOf(mem', n) == FramesOf(mem, n)[f := Splice(PageAt(mem, f), o, bytes)]
  {
    forall g | 0 <= g < n ensures PageAt(mem', g) == if g == f then Splice(PageAt(mem, f), o, bytes) else PageAt(mem, g) {
      if g == f {
        forall k | 0 <= k < PAGE_SIZE ensures PageAt(mem', g)[k] == Splice(PageAt(mem, f), o, bytes)[k] {
        }
      } else {
        assert g < f || f < g;
      }
    }
  }

  class PagingMachine {
    const numPhysPages: nat
    const useRandomPageEviction: bool
    const mainMemory: array<Byte>
    const ipt: array<IPTEntry>
    const tlb: array<TranslationEntry>
    var currentTLBIndex: nat
    var ppnInUse: seq<bool>
    var ppnQueue: seq<nat>
    var swapPages: seq<Page>
    var swapMap: seq<bool>
    var spaces: map<SpaceId, AddrSpace>
    var currentSpace: SpaceId

    ghost predicate Sized()
      reads this
    {
      && mainMemory.Length == numPhysPages * PAGE_SIZE && numPhysPages > 0
      && ipt.Length == numPhysPages && tlb.Length == TLB_SIZE
      && (mainMemory as object) != ipt && (mainMemory as object) != tlb && (ipt as object) != tlb
    }

    ghost predicate Valid()
      reads this, mainMemory, ipt, tlb
    {
      Sized() && Shaped(State())
    }

    ghost function State(): State
      requires Sized()
      reads this, mainMemory, ipt, tlb
    {
      PagingModel.State.State(FramesOf(mainMemory[..], numPhysPages), ipt[..], tlb[..], currentTLBIndex, ppnInUse, ppnQueue,
            swapPages, swapMap, spaces, currentSpace, useRandomPageEviction)
    }

    constructor (numPhysPages: nat, swapSize: nat, random: bool)
      requires numPhysPages > 0
      ensures Valid() && State() == Boot(numPhysPages, swapSize, random)
      ensures fresh(mainMemory) && fresh(ipt) && fresh(tlb)
    {
      this.numPhysPages := numPhysPages;
      useRandomPageEviction := random;
      mainMemory := new Byte[numPhysPages * PAGE_SIZE](_ => 0);
      ipt := new IPTEntry[numPhysPages](i => IPTEntry(-1, i, false, false, false, false, NULL_SPACE));
      tlb := new TranslationEntry[TLB_SIZE](_ => TranslationEntry(0, 0, false, false, false, false));
      currentTLBIndex := 0;
      ppnInUse := seq(numPhysPages, _ => false);
      ppnQueue := [];
      swapPages := seq(swapSize, _ => ZeroPage());
      swapMap := seq(swapSize, _ => false);
      spaces := map[];
      currentSpace := NULL_SPACE;
      new;
      assert forall f :: 0 <= f < numPhysPages ==> PageAt(mainMemory[..], f) == ZeroPage();
    }

    method FindIPTIndex(vpn: int) returns (ppn: int)
      requires Valid()
      ensures ppn == PagingModel.FindIPTIndex(ipt[..], currentSpace, vpn)
    {
      ppn := -1;
      var i := 0;
      while i < numPhysPages
        invariant 0 <= i <= numPhysPages
        invariant PagingModel.FindIPTIndex(ipt[..], currentSpace, vpn) == PagingModel.FindIPTIndex(ipt[..], currentSpace, vpn, i)
      {
        if ipt[i].valid && ipt[i].virtualPage == vpn && ipt[i].processID == currentSpace {
          return i;
        }
        i := i + 1;
      }
    }

    /** A store, bcopy, bzero or OpenFile::ReadAt into physical memory, inside one frame. */
    method CopyToMemory(pa: nat, bytes: seq<Byte>)
      requires Sized() && pa / PAGE_SIZE < numPhysPages && pa % PAGE_SIZE + |bytes| <= PAGE_SIZE
      modifies mainMemory
      ensures var s, f := old(State()), pa / PAGE_SIZE;
              State() == s.(frames := s.frames[f := Splice(s.frames[f], pa % PAGE_SIZE, bytes)])
    {
      ghost var before := mainMemory[..];
      ghost var f, o := pa / PAGE_SIZE, pa % PAGE_SIZE;
      assert pa == f * PAGE_SIZE + o;
      var k := 0;
      while k < |bytes|
        invariant 0 <= k <= |bytes|
        invariant forall a :: 0 <= a < mainMemory.Length ==>
          mainMemory[a] == if pa <= a < pa + k then bytes[a - pa] else before[a]
      {
        mainMemory[pa + k] := bytes[k];
        k := k + 1;
      }
      FrameWritten(before, mainMemory[..], numPhysPages, f, o, bytes);
    }

    /** Takes the victim out of the queue and the TLB and saves it if the IPT says it is dirty. */
    method EvictAPage(draw: nat) returns (ppn: nat, halted: bool)
      requires Valid() && FirstClear(ppnInUse) == -1 && (!useRandomPageEviction ==> ppnQueue != [])
      modifies this, tlb
      ensures ppn == Victim(old(State()), draw)
      ensures Shaped(Detach(old(State()), draw))
      ensures halted <==> SwapOut(Detach(old(State()), draw), ppn).None?
      ensures !halted ==> Valid() && SwapOut(Detach(old(State()), draw), ppn) == Some(State())
    {
      ppn := DetachVictim(draw);
      halted := SaveIfDirty(ppn);
    }

    /** The first half of evictAPage: pick the frame, and drop its TLB entry if it is the current process's.
        The entry's dirty bit is dropped with it. */
    method DetachVictim(draw: nat) returns (ppn: nat)
      requires Valid() && FirstClear(ppnInUse) == -1 && (!useRandomPageEviction ==> ppnQueue != [])
      modifies this`ppnQueue, tlb
      ensures ppn == Victim(old(State()), draw) && ipt[ppn].valid
      ensures Valid() && State() == Detach(old(State()), draw)
    {
      if useRandomPageEviction {
        ppn := draw % numPhysPages;
      } else {
        ppn := ppnQueue[0];
        ppnQueue := ppnQueue[1..];
      }
      assert ppnInUse[ppn];
      if ipt[ppn].processID == currentSpace {
        InvalidateFrameInTLB(ppn);
      }
    }

    /** The second half: a dirty page is written to its swap slot, allocated on first use. */
    method SaveIfDirty(ppn: nat) returns (halted: bool)
      requires Valid() && ppn < numPhysPages && ipt[ppn].valid
      modifies this`swapMap, this`swapPages, this`spaces
      ensures halted <==> SwapOut(old(State()), ppn).None?
      ensures !halted ==> Valid() && SwapOut(old(State()), ppn) == Some(State())
    {
      ghost var s := State();
      halted := false;
      if ipt[ppn].dirty {
        var p, v := ipt[ppn].processID, ipt[ppn].virtualPage;
        var pte := spaces[p].pageTable[v];
        if pte.swapPageIndex < 0 {
          var slot := FirstClear(swapMap);
          if slot == -1 {
            return true;
          }
          swapMap := swapMap[slot := true];
          pte := pte.(swapPageIndex := slot);
        }
        swapPages := swapPages[pte.swapPageIndex := PageAt(mainMemory[..], ppn)];
        spaces := SetPTE(spaces, p, v, pte.(location := InSwapFile));
        assert swapMap == SwapOut(s, ppn).value.swapUsed;
      }
    }

    method InvalidateFrameInTLB(ppn: nat)
      requires Valid()
      modifies tlb
      ensures tlb[..] == InvalidateFrame(old(tlb[..]), ppn)
    {
      var i := 0;
      while i < TLB_SIZE
        invariant 0 <= i <= TLB_SIZE && tlb[..] == old(tlb[..])
        invariant FindTLBFrame(tlb[..], ppn) == FindTLBFrame(tlb[..], ppn, i)
      {
        if tlb[i].valid && tlb[i].physicalPage == ppn {
          tlb[i] := tlb[i].(valid := false);
          return;
        }
        i := i + 1;
      }
    }

    /** Brings page `vpn` of the current space into a frame, evicting one if none is free. */
    method LoadPageIntoIPT(vpn: nat, draw: nat) returns (ppn: nat, halted: bool)
      requires Valid() && CanEvict(State()) && currentSpace in spaces && vpn < |spaces[currentSpace].pageTable|
      modifies this, mainMemory, ipt, tlb
      ensures halted <==> LoadPage(old(State()), vpn, draw).None?
      ensures !halted ==> LoadPage(old(State()), vpn, draw) == Some((State(), ppn))
    {
      ghost var s := State();
      halted := false;
      var free := FirstClear(ppnInUse);
      if free == -1 {
        ppn, halted := EvictAPage(draw);
        if halted {
          return;
        }
        FillFrame(vpn, ppn);
      } else {
        ppn := free;
        FillFrame(vpn, ppn);
        ppnInUse := ppnInUse[ppn := true];
      }
    }

    /** The second half of loadPageIntoIPT: queue the frame, read the page, populate the IPT entry. */
    method FillFrame(vpn: nat, ppn: nat)
      requires Valid() && ppn < numPhysPages
      requires currentSpace in spaces && vpn < |spaces[currentSpace].pageTable|
      modifies this`ppnQueue, mainMemory, ipt
      ensures State() == Install(old(State()), ppn, vpn)
    {
      if !useRandomPageEviction {
        ppnQueue := ppnQueue + [ppn];
      }
      ReadPage(vpn, ppn);
      ipt[ppn] := IPTEntry(vpn, ppn, true, false, false, false, currentSpace);
    }

    /** Brings the page's bytes from where its page-table entry says. */
    method ReadPage(vpn: nat, ppn: nat)
      requires Valid() && ppn < numPhysPages
      requires currentSpace in spaces && vpn < |spaces[currentSpace].pageTable|
      modifies mainMemory
      ensures var s, space := old(State()), spaces[currentSpace];
              State() == s.(frames := s.frames[ppn := LoadedPage(s, space.pageTable[vpn], space.executable, s.frames[ppn])])
    {
      ghost var s := State();
      var pte := spaces[currentSpace].pageTable[vpn];
      var exec := spaces[currentSpace].executable;
      if pte.location.InExecutable? {
        var bytes := BytesAt(exec, pte.byteOffset);
        CopyToMemory(ppn * PAGE_SIZE, bytes);
        ReadOverPage(exec, pte.byteOffset, s.frames[ppn]);
      } else if pte.location.InSwapFile? {
        CopyToMemory(ppn * PAGE_SIZE, swapPages[pte.swapPageIndex]);
        assert Splice(s.frames[ppn], 0, s.swap[pte.swapPageIndex]) == s.swap[pte.swapPageIndex];
      } else {
        CopyToMemory(ppn * PAGE_SIZE, ZeroPage());
        assert Splice(s.frames[ppn], 0, ZeroPage()) == ZeroPage();
      }
    }

    /** Propagates the outgoing slot's dirty bit to the IPT and loads the slot from the IPT. */
    method UpdateTLBFromIPT(ppn: nat)
      requires Sized() && ppn < numPhysPages && currentTLBIndex < TLB_SIZE
      requires tlb[currentTLBIndex].valid ==> 0 <= tlb[currentTLBIndex].physicalPage < ipt.Length
      modifies this`currentTLBIndex, ipt, tlb
      ensures State() == UpdateTLB(old(State()), ppn)
    {
      ghost var s := State();
      var out := tlb[currentTLBIndex];
      if out.valid {
        ipt[out.physicalPage] := ipt[out.physicalPage].(dirty := out.dirty);
      }
      var e := ipt[ppn];
      tlb[currentTLBIndex] := TranslationEntry(e.virtualPage, e.physicalPage, e.valid, e.readOnly, e.use, e.dirty);
      currentTLBIndex := (currentTLBIndex + 1) % TLB_SIZE;
      assert ipt[..] == UpdateTLB(s, ppn).ipt;
    }

    method HandlePageFault(badVAddr: nat, draw: nat) returns (halted: bool)
      requires Valid() && CanEvict(State())
      requires currentSpace in spaces && badVAddr / PAGE_SIZE < |spaces[currentSpace].pageTable|
      modifies this, mainMemory, ipt, tlb
      ensures halted <==> PagingModel.HandlePageFault(old(State()), badVAddr / PAGE_SIZE, draw).None?
      ensures !halted ==> PagingModel.HandlePageFault(old(State()), badVAddr / PAGE_SIZE, draw) == Some(State())
    {
      var vpn := badVAddr / PAGE_SIZE;
      var ppn := FindIPTIndex(vpn);
      halted := false;
      if ppn < 0 {
        ppn, halted := LoadPageIntoIPT(vpn, draw);
        if halted {
          return;
        }
      }
      UpdateTLBFromIPT(ppn);
    }

    /** The TLB search, the permission and range checks, and the use and dirty bits. */
    method Translate(virtAddr: nat, size: nat, writing: bool) returns (e: Exception, physAddr: nat)
      requires Sized()
      modifies tlb
      ensures Translated(old(State()), virtAddr, size, writing, e, physAddr)
      ensures State() == PagingModel.Translate(old(State()), virtAddr, size, writing).2
    {
      ghost var s := State();
      if (size == 4 && virtAddr % 4 != 0) || (size == 2 && virtAddr % 2 != 0) {
        return AddressError, 0;
      }
      var vpn, offset := virtAddr / PAGE_SIZE, virtAddr % PAGE_SIZE;
      var i := 0;
      while i < TLB_SIZE && !(tlb[i].valid && tlb[i].virtualPage == vpn)
        invariant 0 <= i <= TLB_SIZE && tlb[..] == s.tlb
        invariant FindTLB(tlb[..], vpn) == FindTLB(tlb[..], vpn, i)
      {
        i := i + 1;
      }
      if i == TLB_SIZE {
        return PageFault, 0;
      }
      var entry := tlb[i];
      if entry.readOnly && writing {
        return ReadOnly, 0;
      }
      if entry.physicalPage < 0 || entry.physicalPage >= numPhysPages {
        return BusError, 0;
      }
      entry := entry.(use := true);
      if writing {
        entry := entry.(dirty := true);
      }
      tlb[i] := entry;
      return NoException, entry.physicalPage * PAGE_SIZE + offset;
    }

    /** One attempt of a user load. A page fault is handled before the attempt reports failure;
        any other exception halts the machine. */
    method ReadMem(addr: nat, size: nat, draw: nat) returns (ok: bool, value: int, halted: bool)
      requires Valid() && CanEvict(State()) && AccessSize(size)
      requires currentSpace in spaces && addr / PAGE_SIZE < |spaces[currentSpace].pageTable|
      modifies this, mainMemory, ipt, tlb
      ensures var r := PagingModel.ReadMem(old(State()), addr, size);
              && (ok <==> r.0.NoException?)
              && (ok ==> !halted && value == r.1 && State() == r.2)
              && (r.0.PageFault? ==> FaultHandled(old(State()), addr, draw, halted))
              && (!ok && !r.0.PageFault? ==> halted)
    {
      var e, pa := Translate(addr, size, false);
      if e.NoException? {
        AlignedFits(addr, size);
        PageSlice(mainMemory[..], numPhysPages, pa, size);
        assert mainMemory[pa..pa + size] == mainMemory[..][pa..pa + size];
        return true, Widen(mainMemory[pa..pa + size]), false;
      }
      ok, value, halted := false, 0, true;
      if e.PageFault? {
        halted := HandlePageFault(addr, draw);
      }
    }

    twostate predicate FaultHandled(s: State, addr: nat, draw: nat, halted: bool)
      requires Sized() && Shaped(s) && CanEvict(s) && s.current in s.spaces && addr / PAGE_SIZE < |s.spaces[s.current].pageTable|
      reads this, mainMemory, ipt, tlb
    {
      var r := PagingModel.HandlePageFault(s, addr / PAGE_SIZE, draw);
      (halted <==> r.None?) && (!halted ==> r == Some(State()))
    }

    /** One attempt of a user store. */
    method WriteMem(addr: nat, size: nat, value: int, draw: nat) returns (ok: bool, halted: bool)
      requires Valid() && CanEvict(State()) && AccessSize(size)
      requires currentSpace in spaces && addr / PAGE_SIZE < |spaces[currentSpace].pageTable|
      modifies this, mainMemory, ipt, tlb
      ensures var r := PagingModel.WriteMem(old(State()), addr, size, value);
              && (ok <==> r.0.NoException?)
              && (ok ==> !halted && State() == r.1)
              && (r.0.PageFault? ==> FaultHandled(old(State()), addr, draw, halted))
              && (!ok && !r.0.PageFault? ==> halted)
    {
      var e, pa := Translate(addr, size, true);
      if e.NoException? {
        AlignedFits(addr, size);
        CopyToMemory(pa, EncodeLE(value, size));
        return true, false;
      }
      ok, halted := false, true;
      if e.PageFault? {
        halted := HandlePageFault(addr, draw);
      }
    }

    /** The TLB part of Scheduler::Run: flush with copy-back, then switch. */
    method Run(next: SpaceId)
      requires Valid()
      modifies this`currentSpace, ipt, tlb
      ensures State() == SwitchTo(old(State()), next)
    {
      ghost var s := State();
      var i := 0;
      while i < TLB_SIZE
        invariant 0 <= i <= TLB_SIZE
        invariant forall j :: 0 <= j < TLB_SIZE ==> tlb[j] == if j < i then s.tlb[j].(valid := false) else s.tlb[j]
        invariant CopyBack(ipt[..], s.tlb, i) == CopyBack(s.ipt, s.tlb)
      {
        if tlb[i].valid {
          ipt[tlb[i].physicalPage] := ipt[tlb[i].physicalPage].(dirty := tlb[i].dirty);
        }
        tlb[i] := tlb[i].(valid := false);
        i := i + 1;
      }
      currentSpace := next;
      assert tlb[..] == InvalidateAll(s.tlb);
    }

    /** The flush of Fork_Syscall and Exec_Syscall. */
    method InvalidateTLB()
      requires Valid()
      modifies tlb
      ensures Valid() && State() == FlushWithoutCopyBack(old(State()))
    {
      ghost var s := State();
      var i := 0;
      while i < TLB_SIZE
        invariant 0 <= i <= TLB_SIZE
        invariant forall j :: 0 <= j < TLB_SIZE ==> tlb[j] == if j < i then s.tlb[j].(valid := false) else s.tlb[j]
      {
        tlb[i] := tlb[i].(valid := false);
        i := i + 1;
      }
      assert tlb[..] == InvalidateAll(s.tlb);
    }

    /** Fork_Syscall: reject a function pointer that is no address; otherwise grow the page table by a stack, then
        flush. Returns the first page past the new stack. */
    method ForkThread(functionPtr: nat) returns (forked: bool, stackStart: nat)
      requires Valid() && currentSpace in spaces
      modifies this`spaces, tlb
      ensures forked <==> 0 < functionPtr < PAGE_SIZE * numPhysPages
      ensures !forked ==> State() == old(State())
      ensures forked ==> State() == PagingProofs.Fork(old(State())) && stackStart == |spaces[currentSpace].pageTable|
    {
      if functionPtr <= 0 || functionPtr >= PAGE_SIZE * numPhysPages {
        return false, 0;
      }
      stackStart := GrowTable();
      InvalidateTLB();
      forked := true;
    }

    /** AllocateStack: copies the page table into a larger one. */
    method GrowTable() returns (stackStart: nat)
      requires Valid() && currentSpace in spaces
      modifies this`spaces
      ensures Valid() && State() == AllocateStack(old(State()))
      ensures currentSpace in spaces && stackStart == |spaces[currentSpace].pageTable|
    {
      ghost var s := State();
      var table := spaces[currentSpace].pageTable;
      var newTable := new PageTableEntry[|table| + STACK_PAGES](_ => FRESH_PTE);
      var vpn := 0;
      while vpn < |table|
        invariant 0 <= vpn <= |table|
        invariant forall v :: 0 <= v < newTable.Length ==> newTable[v] == if v < vpn then table[v] else FRESH_PTE
        invariant spaces == s.spaces && tlb[..] == s.tlb
      {
        newTable[vpn] := table[vpn];
        vpn := vpn + 1;
      }
      assert newTable[..] == table + seq(STACK_PAGES, _ => FRESH_PTE);
      spaces := spaces[currentSpace := spaces[currentSpace].(pageTable := newTable[..])];
      stackStart := newTable.Length;
    }

    /** Exec_Syscall: build the new address space from the sizes in the executable's header, then flush. */
    method ExecProgram(id: SpaceId, executable: seq<Byte>, codeStart: nat, codeSize: nat, initSize: nat, uninitSize: nat)
      requires Valid() && id !in spaces
      modifies this`spaces, tlb
      ensures var loaded := DivRoundUp(codeSize + initSize, PAGE_SIZE);
              var total := DivRoundUp(codeSize + initSize + uninitSize, PAGE_SIZE);
              loaded <= total
              && State() == PagingProofs.Exec(old(State()), id, NewSpace(executable, codeStart, loaded, total))
    {
      var space := BuildSpace(executable, codeStart, codeSize, initSize, uninitSize);
      spaces := spaces[id := space];
      InvalidateTLB();
    }

    /** The constructor of an address space: its two loops over the page table. */
    method BuildSpace(executable: seq<Byte>, codeStart: nat, codeSize: nat, initSize: nat, uninitSize: nat)
      returns (space: AddrSpace)
      ensures var loaded := DivRoundUp(codeSize + initSize, PAGE_SIZE);
              var total := DivRoundUp(codeSize + initSize + uninitSize, PAGE_SIZE);
              loaded <= total && space == NewSpace(executable, codeStart, loaded, total)
    {
      var numPages := DivRoundUp(codeSize + initSize + uninitSize, PAGE_SIZE);
      var loaded := DivRoundUp(codeSize + initSize, PAGE_SIZE);
      MorePages(codeSize + initSize, codeSize + initSize + uninitSize);
      var pageTable := new PageTableEntry[numPages + STACK_PAGES](_ => FRESH_PTE);
      var vpn := 0;
      while vpn < loaded
        invariant 0 <= vpn <= loaded
        invariant forall v :: 0 <= v < vpn ==> pageTable[v] == PageTableEntry(InExecutable, codeStart + v * PAGE_SIZE, -1)
      {
        pageTable[vpn] := PageTableEntry(InExecutable, codeStart + vpn * PAGE_SIZE, -1);
        vpn := vpn + 1;
      }
      numPages := numPages + STACK_PAGES;
      while vpn < numPages
        invariant loaded <= vpn <= numPages
        invariant forall v :: 0 <= v < loaded ==> pageTable[v] == PageTableEntry(InExecutable, codeStart + v * PAGE_SIZE, -1)
        invariant forall v :: loaded <= v < vpn ==> pageTable[v] == FRESH_PTE
      {
        pageTable[vpn] := FRESH_PTE;
        vpn := vpn + 1;
      }
      space := AddrSpace(executable, pageTable[..]);
    }

    /** copyin's loop for one byte: read, and read again while the attempt faulted. It ends, and with the byte. */
    method CopyinByte(vaddr: nat, draw: nat) returns (value: int, halted: bool)
      requires Valid() && PagingProofs.Wf(State()) && PagingRuns.Mapped(State(), vaddr)
      modifies this, mainMemory, ipt, tlb
      ensures !halted ==> Valid() && PagingProofs.Wf(State()) && CopiedByte(old(State()), vaddr, draw, value, State())
    {
      ghost var s := State();
      CopyinFacts(s, vaddr, draw);
      var result;
      result, value, halted := ReadMem(vaddr, 1, draw);
      while !result && !halted
        invariant result && !halted ==> CopiedByte(s, vaddr, draw, value, State())
        invariant !result && !halted ==>
          && PagingModel.ReadMem(s, vaddr, 1).0.PageFault?
          && PagingModel.HandlePageFault(s, vaddr / PAGE_SIZE, draw) == Some(State())
        decreases !result
      {
        result, value, halted := ReadMem(vaddr, 1, draw);
      }
    }
  }

  lemma MorePages(size: nat, more: nat)
    requires size <= more
    ensures DivRoundUp(size, PAGE_SIZE) <= DivRoundUp(more, PAGE_SIZE)
  {
    assert size / PAGE_SIZE <= more / PAGE_SIZE;
  }

  /** What OpenFile::ReadAt of one page transfers: the bytes the file has there. */
  function BytesAt(file: seq<Byte>, position: nat): (r: seq<Byte>)
    ensures |r| <= PAGE_SIZE
  {
    if position >= |file| then []
    else file[position..if position + PAGE_SIZE > |file| then |file| else position + PAGE_SIZE]
  }

  lemma ReadOverPage(file: seq<Byte>, position: nat, prior: Page)
    ensures Splice(prior, 0, BytesAt(file, position)) == ReadPageAt(file, position, prior)
  {
  }

  /** One byte of copyin faults at most once, and neither attempt breaks the structure. */
  lemma CopyinFacts(s: State, vaddr: nat, draw: nat)
    requires PagingProofs.Wf(s) && PagingRuns.Mapped(s, vaddr)
    ensures CanEvict(s)
    ensures var (e, _, r) := PagingModel.ReadMem(s, vaddr, 1);
            && (e.NoException? ==> PagingProofs.Wf(r))
            && (!e.NoException? ==> e.PageFault?)
    ensures PagingModel.ReadMem(s, vaddr, 1).0.PageFault? ==>
              PagingModel.HandlePageFault(s, vaddr / PAGE_SIZE, draw).Some? ==>
                var t := PagingModel.HandlePageFault(s, vaddr / PAGE_SIZE, draw).value;
                && PagingProofs.Wf(t) && CanEvict(t) && PagingRuns.Mapped(t, vaddr)
                && PagingModel.ReadMem(t, vaddr, 1).0.NoException?
                && PagingProofs.Wf(PagingModel.ReadMem(t, vaddr, 1).2)
  {
    PagingProofs.FullIsReady(s);
    PagingProofs.TranslateWf(s, vaddr, 1, false);
    if PagingModel.ReadMem(s, vaddr, 1).0.PageFault? && PagingModel.HandlePageFault(s, vaddr / PAGE_SIZE, draw).Some? {
      PagingProofs.FaultWf(s, vaddr / PAGE_SIZE, draw);
      PagingRuns.RetrySucceeds(s, vaddr, 1, draw);
      var t := PagingModel.HandlePageFault(s, vaddr / PAGE_SIZE, draw).value;
      PagingProofs.FullIsReady(t);
      PagingProofs.TranslateWf(t, vaddr, 1, false);
    }
  }

  /** What one copyin byte does to the state: a successful attempt, after at most one page fault. */
  ghost predicate CopiedByte(s: State, vaddr: nat, draw: nat, value: int, r: State)
    requires PagingProofs.Wf(s) && PagingRuns.Mapped(s, vaddr)
  {
    PagingProofs.FullIsReady(s);
    var first := PagingModel.ReadMem(s, vaddr, 1);
    if first.0.NoException? then value == first.1 && r == first.2
    else
      var t := PagingModel.HandlePageFault(s, vaddr / PAGE_SIZE, draw);
      && t.Some? && |t.value.tlb| == TLB_SIZE
      && PagingModel.ReadMem(t.value, vaddr, 1) == (NoException, value, r)
  }

  predicate Translated(s: State, va: nat, size: nat, writing: bool, e: Exception, pa: nat)
    requires |s.tlb| == TLB_SIZE
  {
    PagingModel.Translate(s, va, size, writing).0 == e && PagingModel.Translate(s, va, size, writing).1 == pa
  }
}

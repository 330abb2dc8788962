/** Where the missing copy-back of evictAPage, Fork and Exec costs a write, exactly. */
module PagingLimits {
  import opened BitMaps
  import opened Bytes
  import opened Options
  import opened PagingModel
  import opened PagingProofs
  import opened PagingRuns

  /** The fault keeps user memory, whatever bytes the frames hold. */
  ghost predicate FaultKeepsMemory(s: State, vpn: nat, draw: nat)
    requires Wf(s) && s.current in s.spaces && vpn < |s.spaces[s.current].pageTable|
  {
    forall frames: seq<Page>, flat: Flat {:trigger Coherent(s.(frames := frames), flat)} ::
      |frames| == |s.frames| && Coherent(s.(frames := frames), flat) ==> FaultCoherentWith(s, frames, vpn, draw, flat)
  }

  ghost predicate FaultCoherentWith(s: State, frames: seq<Page>, vpn: nat, draw: nat, flat: Flat)
    requires Wf(s) && s.current in s.spaces && vpn < |s.spaces[s.current].pageTable| && |frames| == |s.frames|
  {
    FullIsReady(s.(frames := frames));
    var r := HandlePageFault(s.(frames := frames), vpn, draw);
    r.Some? ==> Coherent(r.value, flat)
  }

  ghost predicate FlushKeepsMemory(s: State) {
    forall frames: seq<Page>, flat: Flat {:trigger Coherent(s.(frames := frames), flat)} ::
      |frames| == |s.frames| && Coherent(s.(frames := frames), flat) ==>
        Coherent(FlushWithoutCopyBack(s.(frames := frames)), flat)
  }

  function BackingByte(s: State, space: AddrSpace, v: nat): (c: Cell)
    requires v < |space.pageTable| && SlotsInRange(space, |s.swap|)
  {
    var pte := space.pageTable[v];
    match pte.location
    case InExecutable => if pte.byteOffset < |space.executable| then Known(space.executable[pte.byteOffset]) else Unknown
    case InSwapFile => Known(s.swap[pte.swapPageIndex][0])
    case Neither => Known(0)
  }

  /** Flat memory of which only the first byte of page (p, v) is known. */
  ghost function OneByte(spaces: map<SpaceId, AddrSpace>, p: SpaceId, v: nat, b: Byte): (flat: Flat)
    ensures FlatShape(spaces, flat)
    ensures forall q, w :: q in spaces && 0 <= w < |spaces[q].pageTable| ==>
      forall o :: 0 <= o < PAGE_SIZE ==>
        CellsOf(flat[q], w)[o] == if q == p && w == v && o == 0 then Known(b) else Unknown
  {
    map q | q in spaces :: seq(PAGE_SIZE * |spaces[q].pageTable|, a => if q == p && a == PAGE_SIZE * v then Known(b) else Unknown)
  }

  /** Bytes for which the one thing known about memory lives only in frame `f`, not in its backing store. */
  lemma UnsavedByte(s: State, f: nat) returns (frames: seq<Page>, flat: Flat)
    requires Wf(s) && f < |s.ipt| && TlbDirty(s.tlb, f) && !s.ipt[f].dirty
    ensures s.ipt[f].valid && |frames| == |s.frames| && Coherent(s.(frames := frames), flat)
    ensures var p, v := s.ipt[f].processID, s.ipt[f].virtualPage;
            !BackingMatches(s.swap, s.spaces[p], v, CellsOf(flat[p], v))
  {
    var i :| 0 <= i < |s.tlb| && s.tlb[i].valid && s.tlb[i].physicalPage == f && s.tlb[i].dirty;
    assert Mirrors(s.tlb[i], s.ipt, s.current);
    var p, v := s.ipt[f].processID, s.ipt[f].virtualPage;
    var b: Byte := if BackingByte(s, s.spaces[p], v) == Known(0) then 1 else 0;
    frames := s.frames[f := s.frames[f][0 := b]];
    flat := OneByte(s.spaces, p, v, b);
    var r := s.(frames := frames);
    assert CellsOf(flat[p], v)[0] == Known(b);
    forall q, w | q in r.spaces && 0 <= w < |r.spaces[q].pageTable| ensures PageOK(r, q, w, CellsOf(flat[q], w)) {
      if q == p && w == v {
        HeldByOneFrame(r, s, f, CellsOf(flat[q], w));
      } else {
        UnknownMatchesAnything(s, s.spaces[q], w, CellsOf(flat[q], w));
      }
    }
  }

  /** A page in a dirty frame that matches its cells is accounted for, as no other frame holds it. */
  lemma HeldByOneFrame(r: State, s: State, f: nat, cells: seq<Cell>)
    requires Wf(s) && r == s.(frames := r.frames) && |r.frames| == |s.ipt| && f < |s.ipt| && s.ipt[f].valid
    requires s.ipt[f].processID in s.spaces && s.ipt[f].virtualPage >= 0
    requires PageMatches(cells, r.frames[f]) && Dirty(r.ipt, r.tlb, f)
    ensures PageOK(r, s.ipt[f].processID, s.ipt[f].virtualPage, cells)
  {
    var q, w := s.ipt[f].processID, s.ipt[f].virtualPage;
    forall g | 0 <= g < |r.ipt| && Holds(r.ipt[g], q, w) ensures g == f {
      assert SamePage(s.ipt[g], s.ipt[f]);
    }
    assert Holds(r.ipt[f], q, w);
  }

  lemma UnknownMatchesAnything(s: State, space: AddrSpace, w: nat, cells: seq<Cell>)
    requires SlotsInRange(space, |s.swap|) && w < |space.pageTable| && |cells| == PAGE_SIZE
    requires forall o :: 0 <= o < PAGE_SIZE ==> cells[o] == Unknown
    ensures BackingMatches(s.swap, space, w, cells) && forall page: Page :: PageMatches(cells, page)
  {
  }

  /** A fault that evicts a frame the IPT has as clean drops the frame's bytes: the page is then in no frame, and
      its backing store is as before. */
  lemma {:induction false} CleanVictimDropped(s: State, vpn: nat, draw: nat)
    requires Wf(s) && CanEvict(s) && s.current in s.spaces && vpn < |s.spaces[s.current].pageTable|
    requires FindIPTIndex(s.ipt, s.current, vpn) == -1 && Full(s) && !s.ipt[Victim(s, draw)].dirty
    ensures s.ipt[Victim(s, draw)].valid && HandlePageFault(s, vpn, draw).Some?
    ensures var r, was := HandlePageFault(s, vpn, draw).value, s.ipt[Victim(s, draw)];
            r.swap == s.swap && r.spaces == s.spaces && Absent(r.ipt, was.processID, was.virtualPage)
  {
    var ppn := Victim(s, draw);
    assert s.inUse[ppn];
    DetachShaped(s, draw);
    var d := Detach(s, draw);
    assert SwapOut(d, ppn) == Some(d);
    var r := HandlePageFault(s, vpn, draw).value;
    var p, v := s.ipt[ppn].processID, s.ipt[ppn].virtualPage;
    forall f | 0 <= f < |r.ipt| ensures !Holds(r.ipt[f], p, v) {
      if f == ppn {
        assert !Holds(s.ipt[ppn], s.current, vpn);
      } else {
        assert !SamePage(s.ipt[f], s.ipt[ppn]);
      }
    }
  }

  lemma {:induction false} UnsavedFaultBreaks(s: State, vpn: nat, draw: nat)
    requires Wf(s) && CanEvict(s) && s.current in s.spaces && vpn < |s.spaces[s.current].pageTable|
    requires FindTLB(s.tlb, vpn) == -1 && !FaultLosesNothing(s, vpn, draw)
    ensures !FaultKeepsMemory(s, vpn, draw)
  {
    var ppn := Victim(s, draw);
    var frames, flat := UnsavedByte(s, ppn);
    var t := s.(frames := frames);
    CleanVictimDropped(t, vpn, draw);
    var p, v := s.ipt[ppn].processID, s.ipt[ppn].virtualPage;
    assert !PageOK(HandlePageFault(t, vpn, draw).value, p, v, CellsOf(flat[p], v));
    assert !FaultCoherentWith(s, frames, vpn, draw, flat);
  }

  /** A page fault keeps user memory for every content of the frames if and only if it drops no dirty bit
      the IPT has not seen. The condition is the negated guard of the copy-back evictAPage lacks. */
  lemma {:induction false} FaultKeepsMemoryIff(s: State, vpn: nat, draw: nat)
    requires Wf(s) && CanEvict(s) && s.current in s.spaces && vpn < |s.spaces[s.current].pageTable|
    requires FindTLB(s.tlb, vpn) == -1
    ensures FaultKeepsMemory(s, vpn, draw) <==> FaultLosesNothing(s, vpn, draw)
  {
    if FaultLosesNothing(s, vpn, draw) {
      forall frames: seq<Page>, flat: Flat | |frames| == |s.frames| && Coherent(s.(frames := frames), flat)
        ensures FaultCoherentWith(s, frames, vpn, draw, flat)
      {
        var t := s.(frames := frames);
        FullIsReady(t);
        if HandlePageFault(t, vpn, draw).Some? {
          FaultCoherent(t, vpn, draw, flat);
        }
      }
    } else {
      UnsavedFaultBreaks(s, vpn, draw);
    }
  }

  /** The flush of Fork and Exec keeps user memory for every content of the frames if and only if
      no valid TLB slot is dirty for a frame whose IPT entry is clean. */
  lemma FlushKeepsMemoryIff(s: State)
    requires Wf(s)
    ensures FlushKeepsMemory(s) <==> FlushLosesNothing(s.tlb, s.ipt)
  {
    if FlushLosesNothing(s.tlb, s.ipt) {
      forall frames: seq<Page>, flat: Flat | |frames| == |s.frames| && Coherent(s.(frames := frames), flat)
        ensures Coherent(FlushWithoutCopyBack(s.(frames := frames)), flat)
      {
        FlushCoherent(s.(frames := frames), flat);
      }
    } else {
      var f :| 0 <= f < |s.ipt| && TlbDirty(s.tlb, f) && !s.ipt[f].dirty;
      var frames, flat := UnsavedByte(s, f);
      var r := FlushWithoutCopyBack(s.(frames := frames));
      var p, v := s.ipt[f].processID, s.ipt[f].virtualPage;
      assert Holds(r.ipt[f], p, v) && !Dirty(r.ipt, r.tlb, f);
      assert !PageOK(r, p, v, CellsOf(flat[p], v));
    }
  }

  // ---- a run that loses a write ----

  const OFF := TranslationEntry(0, 0, false, false, false, false)

  function Slot(vpn: nat, valid: bool, use: bool, dirty: bool): TranslationEntry {
    TranslationEntry(vpn, 0, valid, false, use, dirty)
  }

  /** The machine of the run: one frame, one swap page, process 1 current with an all-zero address space. */
  function Tiny(page: Page, resident: seq<nat>, tlb: seq<TranslationEntry>, tlbIndex: nat): State
    requires |resident| <= 1
  {
    var entry := if resident == [] then IPTEntry(-1, 0, false, false, false, false, NULL_SPACE)
                 else IPTEntry(resident[0], 0, true, false, false, false, 1);
    State([page], [entry], tlb, tlbIndex, [resident != []], if resident == [] then [] else [0],
          [ZeroPage()], [false], map[1 := NewSpace([], 0, 0, 0)], 1, false)
  }

  function Dispatched(): State { Tiny(ZeroPage(), [], [OFF, OFF, OFF, OFF], 0) }
  function Loaded0(): State { Tiny(ZeroPage(), [0], [Slot(0, true, false, false), OFF, OFF, OFF], 1) }
  function Stored7(): State { Tiny(ZeroPage()[0 := 7], [0], [Slot(0, true, true, true), OFF, OFF, OFF], 1) }
  function Evicted(): State {
    Tiny(ZeroPage(), [1], [Slot(0, false, true, true), Slot(1, true, false, false), OFF, OFF], 2)
  }
  function Reloaded(): State {
    Tiny(ZeroPage(), [0], [Slot(0, false, true, true), Slot(1, false, false, false), Slot(0, true, false, false), OFF], 3)
  }

  ghost predicate Reaches(s: State, t: Step, r: State) {
    Wf(s) && Enabled(s, t) && !Next(s, t).Halted? && Next(s, t).s == r
  }

  ghost predicate Loads(s: State, va: nat, value: int) {
    Wf(s) && Enabled(s, Load(va, 1, 0)) && Next(s, Load(va, 1, 0)).Done? && Next(s, Load(va, 1, 0)).value == value
  }

  lemma DispatchedIsReached()
    ensures SwitchTo(Exec(Boot(1, 1, false), 1, NewSpace([], 0, 0, 0)), 1) == Dispatched() && Wf(Dispatched())
  {
    var space := NewSpace([], 0, 0, 0);
    var s0 := Boot(1, 1, false);
    BootWf(1, 1, false);
    ExecWf(s0, 1, space);
    SwitchWf(Exec(s0, 1, space), 1);
    NothingToCopy(Exec(s0, 1, space));
  }

  lemma NothingToCopy(s: State)
    requires Shaped(s) && s.tlb == [OFF, OFF, OFF, OFF]
    ensures SwitchTo(s, 1) == s.(current := 1)
  {
    assert CopyBack(s.ipt, s.tlb, 4) == s.ipt;
    assert CopyBack(s.ipt, s.tlb, 3) == s.ipt;
    assert CopyBack(s.ipt, s.tlb, 2) == s.ipt;
    assert CopyBack(s.ipt, s.tlb, 1) == s.ipt;
    assert InvalidateAll(s.tlb) == [OFF, OFF, OFF, OFF];
  }

  /** An access to a page that is not mapped ends in the state the fault handler leaves. */
  lemma {:induction false} FaultReaches(s: State, t: Step, va: nat, r: State)
    requires Wf(s) && (t == Load(va, 1, 0) || t == Store(va, 1, 7, 0)) && Enabled(s, t)
    requires FindTLB(s.tlb, va / PAGE_SIZE) == -1 && CanEvict(s) && HandlePageFault(s, va / PAGE_SIZE, 0) == Some(r)
    ensures Reaches(s, t, r) && Wf(r)
  {
    StepKeepsStructure(s, t);
  }

  lemma FirstStoreFaults()
    requires Wf(Dispatched())
    ensures Reaches(Dispatched(), Store(0, 1, 7, 0), Loaded0()) && Wf(Loaded0())
  {
    var s := Dispatched();
    assert FindTLB(s.tlb, 0) == -1;
    assert FirstClear(s.inUse) == 0;
    var r := HandlePageFault(s, 0, 0).value;
    assert r.tlb == Loaded0().tlb && r.frames == [ZeroPage()];
    assert r.ipt == Loaded0().ipt && r.queue == [0] && r.inUse == [true];
    FaultReaches(s, Store(0, 1, 7, 0), 0, Loaded0());
  }

  /** In the machine of one frame a fault on page v evicts page p: its entry is clean, so its bytes go nowhere. */
  lemma TinyEvicts(page: Page, p: nat, v: nat, tlb: seq<TranslationEntry>, index: nat)
    requires |tlb| == TLB_SIZE && index < TLB_SIZE && p != v && p < STACK_PAGES && v < STACK_PAGES
    requires Wf(Tiny(page, [p], tlb, index)) && !InvalidateFrame(tlb, 0)[index].valid
    ensures CanEvict(Tiny(page, [p], tlb, index))
    ensures HandlePageFault(Tiny(page, [p], tlb, index), v, 0)
         == Some(Tiny(ZeroPage(), [v], InvalidateFrame(tlb, 0)[index := Slot(v, true, false, false)], (index + 1) % TLB_SIZE))
  {
    var s := Tiny(page, [p], tlb, index);
    FullIsReady(s);
    DetachShaped(s, 0);
    var d := Detach(s, 0);
    assert SwapOut(d, 0) == Some(d);
    TinyInstalls(d, v);
  }

  lemma TinyInstalls(d: State, v: nat)
    requires Shaped(d) && !d.random && |d.frames| == 1 && d.queue == [] && d.current in d.spaces
    requires v < |d.spaces[d.current].pageTable| && d.spaces[d.current].pageTable[v] == FRESH_PTE
    requires !d.tlb[d.tlbIndex].valid
    ensures UpdateTLB(Install(d, 0, v), 0)
         == d.(queue := [0], frames := [ZeroPage()], ipt := [IPTEntry(v, 0, true, false, false, false, d.current)],
               tlb := d.tlb[d.tlbIndex := Slot(v, true, false, false)], tlbIndex := (d.tlbIndex + 1) % TLB_SIZE)
  {
    assert Install(d, 0, v).frames == [ZeroPage()];
    assert Install(d, 0, v).ipt == [IPTEntry(v, 0, true, false, false, false, d.current)];
    assert Install(d, 0, v).queue == [0];
  }

  lemma RetriedStoreWrites()
    requires Wf(Loaded0())
    ensures Reaches(Loaded0(), Store(0, 1, 7, 0), Stored7()) && Wf(Stored7())
  {
    var s := Loaded0();
    StepKeepsStructure(s, Store(0, 1, 7, 0));
    assert EncodeLE(7, 1) == [7];
    var r := WriteMem(s, 0, 1, 7).1;
    assert r.tlb == Stored7().tlb;
    assert r.frames == [Splice(ZeroPage(), 0, [7])];
    assert Splice(ZeroPage(), 0, [7]) == ZeroPage()[0 := 7];
  }

  lemma FirstSlotGoes()
    ensures var tlb := Stored7().tlb;
            && |tlb| == TLB_SIZE && FindTLB(tlb, 1) == -1 && !InvalidateFrame(tlb, 0)[1].valid
            && InvalidateFrame(tlb, 0)[1 := Slot(1, true, false, false)] == Evicted().tlb
  {
    assert FindTLBFrame(Stored7().tlb, 0) == 0;
  }

  lemma NextPageFault()
    requires Wf(Stored7())
    ensures CanEvict(Stored7()) && HandlePageFault(Stored7(), 1, 0) == Some(Evicted())
  {
    FirstSlotGoes();
    TinyEvicts(ZeroPage()[0 := 7], 0, 1, Stored7().tlb, 1);
  }

  lemma NextPageEvicts()
    requires Wf(Stored7())
    ensures Reaches(Stored7(), Load(128, 1, 0), Evicted()) && Wf(Evicted())
  {
    var s := Stored7();
    FirstSlotGoes();
    NextPageFault();
    FaultReaches(s, Load(128, 1, 0), 128, Evicted());
  }

  lemma FirstPageComesBack()
    requires Wf(Evicted())
    ensures Reaches(Evicted(), Load(0, 1, 0), Reloaded()) && Wf(Reloaded())
  {
    var s := Evicted();
    TinyEvicts(s.frames[0], 1, 0, s.tlb, 2);
    assert FindTLBFrame(s.tlb, 0) == 1;
    assert InvalidateFrame(s.tlb, 0)[2 := Slot(0, true, false, false)] == Reloaded().tlb;
    assert FindTLB(s.tlb, 0) == -1;
    FaultReaches(s, Load(0, 1, 0), 0, Reloaded());
  }

  lemma LastLoadReturnsZero()
    requires Wf(Reloaded())
    ensures Loads(Reloaded(), 0, 0)
  {
    assert FindTLB(Reloaded().tlb, 0) == 2;
    assert ZeroPage()[0..1] == [0];
  }

  /** The code loses a write: from start-up, with one frame, store 7 at address 0, touch the next page and
      read address 0 back. The load returns 0. */
  lemma StoredByteIsLost()
    ensures SwitchTo(Exec(Boot(1, 1, false), 1, NewSpace([], 0, 0, 0)), 1) == Dispatched()
    ensures Reaches(Dispatched(), Store(0, 1, 7, 0), Loaded0()) && Reaches(Loaded0(), Store(0, 1, 7, 0), Stored7())
    ensures Reaches(Stored7(), Load(128, 1, 0), Evicted()) && Reaches(Evicted(), Load(0, 1, 0), Reloaded())
    ensures Loads(Reloaded(), 0, 0)
  {
    DispatchedIsReached();
    FirstStoreFaults();
    RetriedStoreWrites();
    NextPageEvicts();
    FirstPageComesBack();
    LastLoadReturnsZero();
  }
}

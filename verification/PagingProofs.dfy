/** Demand paging refines one flat memory per address space. */
module PagingProofs {
  import opened BitMaps
  import opened Bytes
  import opened Options
  import opened PagingModel

  // ---- the structural invariant ----

  ghost predicate NoTlbFor(tlb: seq<TranslationEntry>, f: int) {
    forall i :: 0 <= i < |tlb| ==> !(tlb[i].valid && tlb[i].physicalPage == f)
  }

  predicate SamePage(d: IPTEntry, e: IPTEntry) {
    d.valid && e.valid && d.virtualPage == e.virtualPage && d.processID == e.processID
  }

  /** At most one valid frame per (process, virtual page); every valid entry is its own frame's. */
  ghost predicate IptOK(ipt: seq<IPTEntry>, inUse: seq<bool>) {
    && |inUse| == |ipt|
    && (forall f :: 0 <= f < |ipt| ==> (inUse[f] <==> ipt[f].valid))
    && (forall f :: 0 <= f < |ipt| && ipt[f].valid ==> ipt[f].physicalPage == f && !ipt[f].readOnly)
    && (forall f, g :: 0 <= f < |ipt| && 0 <= g < |ipt| && SamePage(ipt[f], ipt[g]) ==> f == g)
  }

  /** A valid TLB slot mirrors the current process's IPT entry, up to a dirty bit the IPT has yet to see. */
  ghost predicate Mirrors(e: TranslationEntry, ipt: seq<IPTEntry>, current: SpaceId) {
    && 0 <= e.physicalPage < |ipt|
    && Holds(ipt[e.physicalPage], current, e.virtualPage)
    && ipt[e.physicalPage].physicalPage == e.physicalPage
    && !e.readOnly
    && (ipt[e.physicalPage].dirty ==> e.dirty)
  }

  ghost predicate TlbOK(tlb: seq<TranslationEntry>, ipt: seq<IPTEntry>, current: SpaceId) {
    && (forall i :: 0 <= i < |tlb| && tlb[i].valid ==> Mirrors(tlb[i], ipt, current))
    && (forall i, j :: 0 <= i < j < |tlb| && tlb[i].valid && tlb[j].valid ==> tlb[i].virtualPage != tlb[j].virtualPage)
  }

  /** Under FIFO the queue lists exactly the resident frames, once each (`except` is the one in transit). */
  ghost predicate QueueOK(queue: seq<nat>, inUse: seq<bool>, random: bool, except: int := -1) {
    if random then queue == []
    else
      && (forall i, j :: 0 <= i < j < |queue| ==> queue[i] != queue[j])
      && (forall f :: 0 <= f < |inUse| && f != except ==> (inUse[f] <==> f in queue))
      && (forall i :: 0 <= i < |queue| ==> queue[i] != except)
  }

  ghost predicate HasSlot(spaces: map<SpaceId, AddrSpace>, p: SpaceId, v: nat, slot: int) {
    p in spaces && v < |spaces[p].pageTable| && 0 <= slot == spaces[p].pageTable[v].swapPageIndex
  }

  /** No two pages share a swap slot, and every slot a page holds is marked. */
  ghost predicate SwapOK(spaces: map<SpaceId, AddrSpace>, swapUsed: seq<bool>) {
    && (forall p, v, slot :: HasSlot(spaces, p, v, slot) ==> slot < |swapUsed| && swapUsed[slot])
    && (forall p, v, q, w, slot :: HasSlot(spaces, p, v, slot) && HasSlot(spaces, q, w, slot) ==> p == q && v == w)
  }

  ghost predicate Wf(s: State) {
    && Shaped(s)
    && NULL_SPACE !in s.spaces
    && IptOK(s.ipt, s.inUse)
    && TlbOK(s.tlb, s.ipt, s.current)
    && QueueOK(s.queue, s.inUse, s.random)
    && SwapOK(s.spaces, s.swapUsed)
  }

  // ---- the flat memory ----

  /** A byte of flat memory: unknown only past the end of an executable, until it is written. */
  datatype Cell = Known(b: Byte) | Unknown

  type Flat = map<SpaceId, seq<Cell>>

  ghost predicate FlatShape(spaces: map<SpaceId, AddrSpace>, flat: Flat) {
    && flat.Keys == spaces.Keys
    && forall p :: p in spaces ==> |flat[p]| == PAGE_SIZE * |spaces[p].pageTable|
  }

  function CellsOf(m: seq<Cell>, v: nat): (r: seq<Cell>)
    requires (v + 1) * PAGE_SIZE <= |m|
    ensures |r| == PAGE_SIZE
    ensures forall o :: 0 <= o < PAGE_SIZE ==> r[o] == m[v * PAGE_SIZE + o]
  {
    m[v * PAGE_SIZE..(v + 1) * PAGE_SIZE]
  }

  ghost predicate PageMatches(cells: seq<Cell>, page: Page) {
    |cells| == PAGE_SIZE && forall o :: 0 <= o < PAGE_SIZE && cells[o].Known? ==> page[o] == cells[o].b
  }

  /** What a reload would read agrees with the cells. */
  ghost predicate BackingMatches(swap: seq<Page>, space: AddrSpace, v: nat, cells: seq<Cell>) {
    && v < |space.pageTable| && |cells| == PAGE_SIZE
    && var pte := space.pageTable[v];
       match pte.location
       case InExecutable => forall o :: 0 <= o < PAGE_SIZE && cells[o].Known? ==>
          pte.byteOffset + o < |space.executable| && space.executable[pte.byteOffset + o] == cells[o].b
       case InSwapFile => 0 <= pte.swapPageIndex < |swap| && PageMatches(cells, swap[pte.swapPageIndex])
       case Neither => forall o :: 0 <= o < PAGE_SIZE && cells[o].Known? ==> cells[o].b == 0
  }

  ghost predicate TlbDirty(tlb: seq<TranslationEntry>, f: nat) {
    exists i :: 0 <= i < |tlb| && tlb[i].valid && tlb[i].physicalPage == f && tlb[i].dirty
  }

  /** The frame was written since it was loaded, as the IPT or the TLB records it. */
  ghost predicate Dirty(ipt: seq<IPTEntry>, tlb: seq<TranslationEntry>, f: nat)
    requires f < |ipt|
  {
    ipt[f].dirty || TlbDirty(tlb, f)
  }

  ghost predicate Absent(ipt: seq<IPTEntry>, p: SpaceId, v: nat) {
    forall f :: 0 <= f < |ipt| ==> !Holds(ipt[f], p, v)
  }

  /** A resident page's frame holds the flat bytes; a page that would be reloaded has them in its backing store. */
  ghost predicate PageOK(s: State, p: SpaceId, v: nat, cells: seq<Cell>)
    requires p in s.spaces && |s.frames| == |s.ipt|
  {
    && (forall f :: 0 <= f < |s.ipt| && Holds(s.ipt[f], p, v) ==>
          && PageMatches(cells, s.frames[f])
          && (Dirty(s.ipt, s.tlb, f) || BackingMatches(s.swap, s.spaces[p], v, cells)))
    && (Absent(s.ipt, p, v) ==> BackingMatches(s.swap, s.spaces[p], v, cells))
  }

  ghost predicate Coherent(s: State, flat: Flat) {
    && |s.frames| == |s.ipt|
    && FlatShape(s.spaces, flat)
    && forall p, v :: p in s.spaces && 0 <= v < |s.spaces[p].pageTable| ==> PageOK(s, p, v, CellsOf(flat[p], v))
  }

  // ---- eviction ----

  /** The guard of the missing copy-back: the TLB entry evictAPage drops has nothing the IPT has not seen. */
  ghost predicate DropLosesNothing(s: State, ppn: nat)
    requires ppn < |s.ipt|
  {
    TlbDirty(s.tlb, ppn) ==> s.ipt[ppn].dirty
  }

  ghost predicate Full(s: State) {
    FirstClear(s.inUse) == -1 && (!s.random ==> s.queue != [])
  }

  lemma FullIsReady(s: State)
    requires Wf(s)
    ensures CanEvict(s)
  {
    if !s.random && FirstClear(s.inUse) == -1 {
      assert s.inUse[0];
      assert 0 in s.queue;
    }
  }

  lemma InvalidateFrameOK(tlb: seq<TranslationEntry>, ipt: seq<IPTEntry>, current: SpaceId, ppn: nat)
    requires TlbOK(tlb, ipt, current)
    ensures var r := InvalidateFrame(tlb, ppn);
            && NoTlbFor(r, ppn) && TlbOK(r, ipt, current)
            && forall i :: 0 <= i < |tlb| && tlb[i].physicalPage != ppn ==> r[i] == tlb[i]
  {
    var i := FindTLBFrame(tlb, ppn);
    if i != -1 {
      forall j | 0 <= j < |tlb| && tlb[j].valid && tlb[j].physicalPage == ppn ensures j == i {
        assert Mirrors(tlb[i], ipt, current) && Mirrors(tlb[j], ipt, current);
      }
    }
  }

  lemma DetachTlb(s: State, draw: nat)
    requires Wf(s) && Full(s)
    ensures var r, ppn := Detach(s, draw), Victim(s, draw);
            && NoTlbFor(r.tlb, ppn) && TlbOK(r.tlb, s.ipt, s.current) && s.ipt[ppn].valid && |r.tlb| == |s.tlb|
            && forall i :: 0 <= i < |s.tlb| && s.tlb[i].physicalPage != ppn ==> r.tlb[i] == s.tlb[i]
  {
    var ppn := Victim(s, draw);
    assert s.inUse[ppn];
    if s.ipt[ppn].processID == s.current {
      InvalidateFrameOK(s.tlb, s.ipt, s.current, ppn);
    } else {
      forall i | 0 <= i < |s.tlb| && s.tlb[i].valid ensures s.tlb[i].physicalPage != ppn {
        assert Mirrors(s.tlb[i], s.ipt, s.current);
      }
    }
  }

  lemma DetachQueue(s: State, draw: nat)
    requires Wf(s) && Full(s)
    ensures var r, ppn := Detach(s, draw), Victim(s, draw);
            QueueOK(r.queue, s.inUse, s.random, ppn) && forall k :: 0 <= k < |r.queue| ==> r.queue[k] < |s.ipt|
  {
    if !s.random {
      assert s.queue == [s.queue[0]] + s.queue[1..];
    }
  }

  lemma DetachShaped(s: State, draw: nat)
    requires Wf(s) && Full(s)
    ensures Shaped(Detach(s, draw))
  {
    DetachTlb(s, draw);
    DetachQueue(s, draw);
    var r := Detach(s, draw);
    forall i | 0 <= i < |r.tlb| && r.tlb[i].valid ensures 0 <= r.tlb[i].physicalPage < |r.ipt| {
      assert Mirrors(r.tlb[i], s.ipt, s.current);
    }
  }

  lemma DetachCoherent(s: State, draw: nat, flat: Flat)
    requires Wf(s) && Full(s)
    requires Coherent(s, flat) && DropLosesNothing(s, Victim(s, draw))
    ensures Coherent(Detach(s, draw), flat)
  {
    DetachTlb(s, draw);
    var r, ppn := Detach(s, draw), Victim(s, draw);
    forall f | 0 <= f < |s.ipt| && Dirty(s.ipt, s.tlb, f) ensures Dirty(r.ipt, r.tlb, f) {
      if !s.ipt[f].dirty {
        var i :| 0 <= i < |s.tlb| && s.tlb[i].valid && s.tlb[i].physicalPage == f && s.tlb[i].dirty;
        assert r.tlb[i] == s.tlb[i];
      }
    }
    forall p, v | p in r.spaces && 0 <= v < |r.spaces[p].pageTable| ensures PageOK(r, p, v, CellsOf(flat[p], v)) {
      assert PageOK(s, p, v, CellsOf(flat[p], v));
    }
  }

  // ---- the write to swap ----

  lemma SwapOutShaped(s: State, ppn: nat)
    requires Shaped(s) && SwapOK(s.spaces, s.swapUsed) && ppn < |s.ipt| && s.ipt[ppn].valid
    requires SwapOut(s, ppn).Some?
    ensures var r := SwapOut(s, ppn).value;
            Shaped(r) && SwapOK(r.spaces, r.swapUsed) && r.spaces.Keys == s.spaces.Keys
  {
    if s.ipt[ppn].dirty {
      var p, v := s.ipt[ppn].processID, s.ipt[ppn].virtualPage;
      var pte := s.spaces[p].pageTable[v];
      var slot := if pte.swapPageIndex < 0 then FirstClear(s.swapUsed) else pte.swapPageIndex;
      var r := SwapOut(s, ppn).value;
      assert pte.swapPageIndex >= 0 ==> HasSlot(s.spaces, p, v, slot);
      forall q, w, k | HasSlot(r.spaces, q, w, k)
        ensures k < |r.swapUsed| && r.swapUsed[k]
        ensures q == p && w == v ==> k == slot
        ensures !(q == p && w == v) ==> k != slot && HasSlot(s.spaces, q, w, k)
      {
        if !(q == p && w == v) {
          assert HasSlot(s.spaces, q, w, k);
        }
      }
    }
  }

  lemma SwapOutKeepsOther(s: State, ppn: nat, q: SpaceId, w: nat, cells: seq<Cell>)
    requires Shaped(s) && SwapOK(s.spaces, s.swapUsed) && ppn < |s.ipt| && s.ipt[ppn].valid && s.ipt[ppn].dirty
    requires SwapOut(s, ppn).Some?
    requires q in s.spaces && w < |s.spaces[q].pageTable| && !Holds(s.ipt[ppn], q, w)
    requires BackingMatches(s.swap, s.spaces[q], w, cells)
    ensures var r := SwapOut(s, ppn).value; q in r.spaces && BackingMatches(r.swap, r.spaces[q], w, cells)
  {
    var p, v := s.ipt[ppn].processID, s.ipt[ppn].virtualPage;
    var pte, other := s.spaces[p].pageTable[v], s.spaces[q].pageTable[w];
    var slot := if pte.swapPageIndex < 0 then FirstClear(s.swapUsed) else pte.swapPageIndex;
    var r := SwapOut(s, ppn).value;
    assert r.spaces[q].pageTable[w] == other && r.spaces[q].executable == s.spaces[q].executable;
    if other.location.InSwapFile? {
      assert HasSlot(s.spaces, q, w, other.swapPageIndex);
      assert pte.swapPageIndex >= 0 ==> HasSlot(s.spaces, p, v, slot);
      assert r.swap[other.swapPageIndex] == s.swap[other.swapPageIndex];
    }
  }

  /** After the write the victim's backing store holds its bytes, and no other page's bytes moved. */
  lemma SwapOutCoherent(s: State, ppn: nat, flat: Flat)
    requires Shaped(s) && SwapOK(s.spaces, s.swapUsed) && ppn < |s.ipt| && s.ipt[ppn].valid
    requires Coherent(s, flat) && NoTlbFor(s.tlb, ppn)
    requires SwapOut(s, ppn).Some?
    ensures var r := SwapOut(s, ppn).value; var p, v := s.ipt[ppn].processID, s.ipt[ppn].virtualPage;
            && Coherent(r, flat)
            && BackingMatches(r.swap, r.spaces[p], v, CellsOf(flat[p], v))
  {
    var p, v := s.ipt[ppn].processID, s.ipt[ppn].virtualPage;
    assert Holds(s.ipt[ppn], p, v);
    assert PageOK(s, p, v, CellsOf(flat[p], v));
    if s.ipt[ppn].dirty {
      var r := SwapOut(s, ppn).value;
      assert BackingMatches(r.swap, r.spaces[p], v, CellsOf(flat[p], v));
      forall q, w | q in r.spaces && 0 <= w < |r.spaces[q].pageTable| ensures PageOK(r, q, w, CellsOf(flat[q], w)) {
        var cells := CellsOf(flat[q], w);
        assert PageOK(s, q, w, cells);
        if !Holds(s.ipt[ppn], q, w) && BackingMatches(s.swap, s.spaces[q], w, cells) {
          SwapOutKeepsOther(s, ppn, q, w, cells);
        }
      }
    }
  }

  // ---- installing a page in a frame ----

  lemma LoadedMatches(s: State, space: AddrSpace, v: nat, cells: seq<Cell>, prior: Page)
    requires BackingMatches(s.swap, space, v, cells)
    ensures PageMatches(cells, LoadedPage(s, space.pageTable[v], space.executable, prior))
  {
  }

  /** State `s` with frame `ppn` given to page `vpn` of the current space. */
  function Installed(s: State, ppn: nat, vpn: nat): (r: State)
    requires Shaped(s) && ppn < |s.ipt| && s.current in s.spaces && vpn < |s.spaces[s.current].pageTable|
  {
    Install(s, ppn, vpn).(inUse := s.inUse[ppn := true])
  }

  lemma InstallWf(s: State, ppn: nat, vpn: nat)
    requires Shaped(s) && NULL_SPACE !in s.spaces && ppn < |s.ipt|
    requires s.current in s.spaces && vpn < |s.spaces[s.current].pageTable|
    requires IptOK(s.ipt, s.inUse) && TlbOK(s.tlb, s.ipt, s.current) && SwapOK(s.spaces, s.swapUsed)
    requires QueueOK(s.queue, s.inUse, s.random, ppn) && NoTlbFor(s.tlb, ppn) && Absent(s.ipt, s.current, vpn)
    ensures Wf(Installed(s, ppn, vpn))
    ensures NoTlbFor(Installed(s, ppn, vpn).tlb, ppn)
  {
    var r := Installed(s, ppn, vpn);
    forall i | 0 <= i < |r.tlb| && r.tlb[i].valid ensures Mirrors(r.tlb[i], r.ipt, r.current) {
      assert Mirrors(s.tlb[i], s.ipt, s.current);
    }
    forall f, g | 0 <= f < |r.ipt| && 0 <= g < |r.ipt| && SamePage(r.ipt[f], r.ipt[g]) ensures f == g {
      assert f != ppn && g != ppn ==> SamePage(s.ipt[f], s.ipt[g]);
      assert !Holds(s.ipt[g], s.current, vpn) && !Holds(s.ipt[f], s.current, vpn);
    }
    if !s.random {
      forall f | 0 <= f < |r.inUse| ensures r.inUse[f] <==> f in r.queue {
      }
    }
  }

  lemma InstallCoherent(s: State, ppn: nat, vpn: nat, flat: Flat)
    requires Shaped(s) && ppn < |s.ipt|
    requires s.current in s.spaces && vpn < |s.spaces[s.current].pageTable|
    requires IptOK(s.ipt, s.inUse) && NoTlbFor(s.tlb, ppn) && Absent(s.ipt, s.current, vpn)
    requires Coherent(s, flat)
    requires s.ipt[ppn].valid ==>
               var p, v := s.ipt[ppn].processID, s.ipt[ppn].virtualPage;
               BackingMatches(s.swap, s.spaces[p], v, CellsOf(flat[p], v))
    ensures Coherent(Installed(s, ppn, vpn), flat)
  {
    var r := Installed(s, ppn, vpn);
    var cells := CellsOf(flat[s.current], vpn);
    assert PageOK(s, s.current, vpn, cells);
    LoadedMatches(s, s.spaces[s.current], vpn, cells, s.frames[ppn]);
    forall p, v | p in r.spaces && 0 <= v < |r.spaces[p].pageTable| ensures PageOK(r, p, v, CellsOf(flat[p], v)) {
      assert PageOK(s, p, v, CellsOf(flat[p], v));
      if p == s.current && v == vpn {
        assert forall f :: 0 <= f < |r.ipt| && Holds(r.ipt[f], p, v) ==> f == ppn by {
          forall f | 0 <= f < |r.ipt| && f != ppn ensures !Holds(r.ipt[f], p, v) {
            assert r.ipt[f] == s.ipt[f];
          }
        }
        assert Holds(r.ipt[ppn], p, v);
      } else if Absent(r.ipt, p, v) && !Absent(s.ipt, p, v) {
        var f :| 0 <= f < |s.ipt| && Holds(s.ipt[f], p, v);
        assert !Holds(r.ipt[f], p, v);
      }
    }
  }

  // ---- loading the TLB ----

  lemma UpdateTLBWf(s: State, ppn: nat)
    requires Wf(s) && ppn < |s.ipt| && s.ipt[ppn].valid && s.ipt[ppn].processID == s.current
    requires NoTlbFor(s.tlb, ppn)
    ensures Wf(UpdateTLB(s, ppn))
  {
    var r := UpdateTLB(s, ppn);
    var out := s.tlb[s.tlbIndex];
    assert out.valid ==> Mirrors(out, s.ipt, s.current);
    assert forall f :: 0 <= f < |s.ipt| ==> r.ipt[f] == s.ipt[f].(dirty := r.ipt[f].dirty);
    assert forall f :: 0 <= f < |s.ipt| && !(out.valid && f == out.physicalPage) ==> r.ipt[f] == s.ipt[f];
    forall f, g | 0 <= f < |r.ipt| && 0 <= g < |r.ipt| && SamePage(r.ipt[f], r.ipt[g]) ensures f == g {
      assert SamePage(s.ipt[f], s.ipt[g]);
    }
    forall i | 0 <= i < |r.tlb| && r.tlb[i].valid ensures Mirrors(r.tlb[i], r.ipt, r.current) {
      if i != s.tlbIndex {
        assert Mirrors(s.tlb[i], s.ipt, s.current);
        assert out.valid ==> s.tlb[i].virtualPage != out.virtualPage;
      }
    }
    forall i | 0 <= i < |r.tlb| && i != s.tlbIndex && r.tlb[i].valid
      ensures r.tlb[i].virtualPage != r.tlb[s.tlbIndex].virtualPage
    {
      OtherSlotOtherPage(s, ppn, i);
    }
  }

  /** No slot maps the page that a frame without a slot holds. */
  lemma OtherSlotOtherPage(s: State, ppn: nat, i: nat)
    requires Wf(s) && ppn < |s.ipt| && s.ipt[ppn].valid && s.ipt[ppn].processID == s.current
    requires NoTlbFor(s.tlb, ppn) && i < |s.tlb| && s.tlb[i].valid
    ensures s.tlb[i].virtualPage != s.ipt[ppn].virtualPage
  {
    assert Mirrors(s.tlb[i], s.ipt, s.current);
    assert s.tlb[i].virtualPage == s.ipt[ppn].virtualPage ==> SamePage(s.ipt[s.tlb[i].physicalPage], s.ipt[ppn]);
  }

  lemma UpdateTLBCoherent(s: State, ppn: nat, flat: Flat)
    requires Wf(s) && ppn < |s.ipt| && s.ipt[ppn].valid && s.ipt[ppn].processID == s.current
    requires NoTlbFor(s.tlb, ppn) && Coherent(s, flat)
    ensures Coherent(UpdateTLB(s, ppn), flat)
  {
    var r := UpdateTLB(s, ppn);
    var out := s.tlb[s.tlbIndex];
    assert out.valid ==> Mirrors(out, s.ipt, s.current);
    forall f | 0 <= f < |s.ipt| && Dirty(s.ipt, s.tlb, f) ensures Dirty(r.ipt, r.tlb, f) {
      if TlbDirty(s.tlb, f) {
        var i :| 0 <= i < |s.tlb| && s.tlb[i].valid && s.tlb[i].physicalPage == f && s.tlb[i].dirty;
        if i == s.tlbIndex {
          assert r.ipt[f].dirty;
        } else {
          assert r.tlb[i] == s.tlb[i];
          assert TlbDirty(r.tlb, f);
        }
      } else if out.valid && out.physicalPage == f {
        assert Mirrors(out, s.ipt, s.current);
      }
    }
    assert forall f :: 0 <= f < |s.ipt| ==> r.ipt[f] == s.ipt[f].(dirty := r.ipt[f].dirty);
    forall p, v | p in r.spaces && 0 <= v < |r.spaces[p].pageTable| ensures PageOK(r, p, v, CellsOf(flat[p], v)) {
      assert PageOK(s, p, v, CellsOf(flat[p], v));
      assert forall f :: 0 <= f < |s.ipt| ==> (Holds(s.ipt[f], p, v) <==> Holds(r.ipt[f], p, v));
    }
  }

  // ---- one page fault ----

  /** The guard of one fault: if it evicts, the dropped TLB entry has nothing the IPT has not seen. */
  ghost predicate FaultLosesNothing(s: State, vpn: nat, draw: nat)
    requires Shaped(s) && CanEvict(s)
  {
    FindIPTIndex(s.ipt, s.current, vpn) == -1 && FirstClear(s.inUse) == -1 ==> DropLosesNothing(s, Victim(s, draw))
  }

  lemma {:induction false} ResidentHasNoTlb(s: State, vpn: nat, ppn: nat)
    requires Wf(s) && FindTLB(s.tlb, vpn) == -1 && ppn < |s.ipt| && Holds(s.ipt[ppn], s.current, vpn)
    ensures NoTlbFor(s.tlb, ppn)
  {
    forall i | 0 <= i < |s.tlb| && s.tlb[i].valid ensures s.tlb[i].physicalPage != ppn {
      assert Mirrors(s.tlb[i], s.ipt, s.current);
    }
  }

  ghost predicate SameSizes(s: State, r: State) {
    && r.current == s.current && r.spaces.Keys == s.spaces.Keys
    && forall p :: p in s.spaces ==> |r.spaces[p].pageTable| == |s.spaces[p].pageTable|
  }

  /** What eviction leaves for Install: a frame no TLB slot maps and no queue position holds. */
  lemma EvictWf(s: State, draw: nat)
    requires Wf(s) && Full(s)
    requires SwapOut(Detach(s, draw), Victim(s, draw)).Some?
    ensures var r, ppn := SwapOut(Detach(s, draw), Victim(s, draw)).value, Victim(s, draw);
            && Shaped(r) && SwapOK(r.spaces, r.swapUsed) && NoTlbFor(r.tlb, ppn)
            && TlbOK(r.tlb, r.ipt, r.current) && QueueOK(r.queue, r.inUse, r.random, ppn)
            && SameSizes(s, r) && r.ipt == s.ipt && r.inUse == s.inUse && r.inUse[ppn]
  {
    DetachTlb(s, draw);
    DetachQueue(s, draw);
    DetachShaped(s, draw);
    SwapOutShaped(Detach(s, draw), Victim(s, draw));
    assert s.inUse[Victim(s, draw)];
  }

  lemma FreeFrameHasNoTlb(s: State, free: nat)
    requires Wf(s) && free < |s.inUse| && !s.inUse[free]
    ensures NoTlbFor(s.tlb, free)
  {
    forall i | 0 <= i < |s.tlb| && s.tlb[i].valid ensures s.tlb[i].physicalPage != free {
      assert Mirrors(s.tlb[i], s.ipt, s.current);
    }
  }

  /** A page put into the frame an eviction has freed. */
  lemma EvictedInstallWf(s: State, vpn: nat, draw: nat)
    requires Wf(s) && Full(s) && s.current in s.spaces && vpn < |s.spaces[s.current].pageTable|
    requires Absent(s.ipt, s.current, vpn) && SwapOut(Detach(s, draw), Victim(s, draw)).Some?
    ensures var s1, ppn := SwapOut(Detach(s, draw), Victim(s, draw)).value, Victim(s, draw);
            && Shaped(s1) && SameSizes(s, s1)
            && var r := Install(s1, ppn, vpn);
               Wf(r) && Holds(r.ipt[ppn], r.current, vpn) && NoTlbFor(r.tlb, ppn) && SameSizes(s, r)
  {
    EvictWf(s, draw);
    var s1, ppn := SwapOut(Detach(s, draw), Victim(s, draw)).value, Victim(s, draw);
    InstallWf(s1, ppn, vpn);
    assert s1.inUse[ppn := true] == s1.inUse;
    assert Install(s1, ppn, vpn) == Installed(s1, ppn, vpn);
  }

  lemma {:induction false} LoadPageWf(s: State, vpn: nat, draw: nat)
    requires Wf(s) && CanEvict(s) && s.current in s.spaces && vpn < |s.spaces[s.current].pageTable|
    requires FindIPTIndex(s.ipt, s.current, vpn) == -1 && LoadPage(s, vpn, draw).Some?
    ensures var (r, ppn) := LoadPage(s, vpn, draw).value;
            && Wf(r) && ppn < |r.ipt| && Holds(r.ipt[ppn], r.current, vpn) && NoTlbFor(r.tlb, ppn) && SameSizes(s, r)
  {
    var free := FirstClear(s.inUse);
    if free != -1 {
      FreeFrameHasNoTlb(s, free);
      InstallWf(s, free, vpn);
    } else {
      DetachShaped(s, draw);
      EvictedInstallWf(s, vpn, draw);
    }
  }

  lemma {:induction false} LoadPageCoherent(s: State, vpn: nat, draw: nat, flat: Flat)
    requires Wf(s) && CanEvict(s) && s.current in s.spaces && vpn < |s.spaces[s.current].pageTable|
    requires FindIPTIndex(s.ipt, s.current, vpn) == -1 && LoadPage(s, vpn, draw).Some?
    requires Coherent(s, flat) && FaultLosesNothing(s, vpn, draw)
    ensures Coherent(LoadPage(s, vpn, draw).value.0, flat)
  {
    var free := FirstClear(s.inUse);
    if free != -1 {
      forall i | 0 <= i < |s.tlb| && s.tlb[i].valid ensures s.tlb[i].physicalPage != free {
        assert Mirrors(s.tlb[i], s.ipt, s.current);
      }
      InstallCoherent(s, free, vpn, flat);
    } else {
      var ppn := Victim(s, draw);
      DetachTlb(s, draw);
      DetachShaped(s, draw);
      DetachCoherent(s, draw, flat);
      var d := Detach(s, draw);
      SwapOutShaped(d, ppn);
      SwapOutCoherent(d, ppn, flat);
      var s1 := SwapOut(d, ppn).value;
      InstallCoherent(s1, ppn, vpn, flat);
      assert s1.inUse[ppn := true] == s1.inUse;
      assert Install(s1, ppn, vpn) == Installed(s1, ppn, vpn);
    }
  }

  /** Every fault keeps the structure, whatever the dirty bits, and maps the page it was taken for:
      the retry of the access cannot fault again. */
  lemma {:induction false} FaultWf(s: State, vpn: nat, draw: nat)
    requires Wf(s) && CanEvict(s) && s.current in s.spaces && vpn < |s.spaces[s.current].pageTable|
    requires FindTLB(s.tlb, vpn) == -1 && HandlePageFault(s, vpn, draw).Some?
    ensures var r := HandlePageFault(s, vpn, draw).value;
            && Wf(r) && FindTLB(r.tlb, vpn) != -1
            && SameSizes(s, r)
  {
    var ppn := FindIPTIndex(s.ipt, s.current, vpn);
    if ppn != -1 {
      ResidentHasNoTlb(s, vpn, ppn);
      UpdateTLBWf(s, ppn);
      MappedAfterUpdate(s, ppn, vpn);
    } else {
      LoadPageWf(s, vpn, draw);
      var (s1, f) := LoadPage(s, vpn, draw).value;
      UpdateTLBWf(s1, f);
      MappedAfterUpdate(s1, f, vpn);
    }
  }

  lemma {:induction false} MappedAfterUpdate(s: State, ppn: nat, vpn: nat)
    requires Wf(s) && ppn < |s.ipt| && Holds(s.ipt[ppn], s.current, vpn)
    ensures FindTLB(UpdateTLB(s, ppn).tlb, vpn) != -1
  {
    var r := UpdateTLB(s, ppn);
    assert r.tlb[s.tlbIndex].valid && r.tlb[s.tlbIndex].virtualPage == vpn;
  }

  lemma {:induction false} FaultCoherent(s: State, vpn: nat, draw: nat, flat: Flat)
    requires Wf(s) && CanEvict(s) && s.current in s.spaces && vpn < |s.spaces[s.current].pageTable|
    requires FindTLB(s.tlb, vpn) == -1 && HandlePageFault(s, vpn, draw).Some?
    requires Coherent(s, flat) && FaultLosesNothing(s, vpn, draw)
    ensures Coherent(HandlePageFault(s, vpn, draw).value, flat)
  {
    var ppn := FindIPTIndex(s.ipt, s.current, vpn);
    if ppn != -1 {
      ResidentHasNoTlb(s, vpn, ppn);
      UpdateTLBCoherent(s, ppn, flat);
    } else {
      LoadPageWf(s, vpn, draw);
      LoadPageCoherent(s, vpn, draw, flat);
      var (s1, f) := LoadPage(s, vpn, draw).value;
      UpdateTLBCoherent(s1, f, flat);
    }
  }

  // ---- accesses ----

  /** The use and dirty bits Translate sets keep the structure; it raises no exception beyond the two expected. */
  lemma {:induction false} TranslateWf(s: State, va: nat, size: nat, writing: bool)
    requires Wf(s)
    ensures var (e, pa, r) := Translate(s, va, size, writing);
            && Wf(r) && (e.NoException? || e.PageFault? || e.AddressError?)
            && (e.NoException? ==> Holds(s.ipt[pa / PAGE_SIZE], s.current, va / PAGE_SIZE))
            && (e.PageFault? <==> !e.AddressError? && FindTLB(s.tlb, va / PAGE_SIZE) == -1)
            && r == s.(tlb := r.tlb)
  {
    var i := FindTLB(s.tlb, va / PAGE_SIZE);
    if i != -1 {
      assert Mirrors(s.tlb[i], s.ipt, s.current);
      var (e, pa, r) := Translate(s, va, size, writing);
      if e.NoException? {
        forall j | 0 <= j < |r.tlb| && r.tlb[j].valid ensures Mirrors(r.tlb[j], r.ipt, r.current) {
          assert Mirrors(s.tlb[j], s.ipt, s.current);
        }
      }
    }
  }

  lemma TranslateCoherent(s: State, va: nat, size: nat, writing: bool, flat: Flat)
    requires Wf(s) && Coherent(s, flat)
    ensures var (e, pa, r) := Translate(s, va, size, writing);
            && Coherent(r, flat)
            && (e.NoException? && writing ==> Dirty(r.ipt, r.tlb, pa / PAGE_SIZE))
  {
    var (e, pa, r) := Translate(s, va, size, writing);
    if e.NoException? {
      var i := FindTLB(s.tlb, va / PAGE_SIZE);
      assert Mirrors(s.tlb[i], s.ipt, s.current);
      assert r.tlb[i].valid && r.tlb[i].physicalPage == pa / PAGE_SIZE && (writing ==> r.tlb[i].dirty);
      forall f | 0 <= f < |s.ipt| && Dirty(s.ipt, s.tlb, f) ensures Dirty(r.ipt, r.tlb, f) {
        if TlbDirty(s.tlb, f) {
          var j :| 0 <= j < |s.tlb| && s.tlb[j].valid && s.tlb[j].physicalPage == f && s.tlb[j].dirty;
          assert r.tlb[j].valid && r.tlb[j].physicalPage == f && r.tlb[j].dirty;
        }
      }
      forall p, v | p in r.spaces && 0 <= v < |r.spaces[p].pageTable| ensures PageOK(r, p, v, CellsOf(flat[p], v)) {
        assert PageOK(s, p, v, CellsOf(flat[p], v));
      }
    }
  }

  function ByteOf(c: Cell): Byte { if c.Known? then c.b else 0 }

  predicate AllKnown(m: seq<Cell>, va: nat, size: nat) {
    va + size <= |m| && forall a :: va <= a < va + size ==> m[a].Known?
  }

  function CellBytes(cells: seq<Cell>): (r: seq<Byte>)
    ensures |r| == |cells|
    ensures forall k :: 0 <= k < |r| ==> r[k] == ByteOf(cells[k])
  {
    if cells == [] then [] else [ByteOf(cells[0])] + CellBytes(cells[1..])
  }

  function FlatBytes(m: seq<Cell>, va: nat, size: nat): (r: seq<Byte>)
    requires va + size <= |m|
  {
    CellBytes(m[va..va + size])
  }

  /** A frame that matches a page's cells reads, where they are known, as they do. */
  lemma FrameReadsFlat(m: seq<Cell>, v: nat, page: Page, o: nat, size: nat)
    requires (v + 1) * PAGE_SIZE <= |m| && PageMatches(CellsOf(m, v), page) && o + size <= PAGE_SIZE
    requires AllKnown(m, v * PAGE_SIZE + o, size)
    ensures page[o..o + size] == FlatBytes(m, v * PAGE_SIZE + o, size)
  {
    var read, flat := page[o..o + size], FlatBytes(m, v * PAGE_SIZE + o, size);
    forall k | 0 <= k < size ensures read[k] == flat[k] {
      assert CellsOf(m, v)[o + k] == m[v * PAGE_SIZE + o + k];
    }
  }

  /** A read that translates returns the flat bytes, widened as the hardware widens them. */
  lemma ReadAgrees(s: State, va: nat, size: nat, flat: Flat)
    requires Wf(s) && Coherent(s, flat) && AccessSize(size) && s.current in s.spaces
    requires ReadMem(s, va, size).0.NoException? && AllKnown(flat[s.current], va, size)
    ensures ReadMem(s, va, size).1 == Widen(FlatBytes(flat[s.current], va, size))
  {
    TranslateWf(s, va, size, false);
    var (e, pa, r) := Translate(s, va, size, false);
    var f, v, o := pa / PAGE_SIZE, va / PAGE_SIZE, va % PAGE_SIZE;
    AlignedFits(va, size);
    var m := flat[s.current];
    var cells := CellsOf(m, v);
    assert PageOK(s, s.current, v, cells);
    assert PageMatches(cells, s.frames[f]);
    FrameReadsFlat(m, v, s.frames[f], o, size);
  }

  /** What a load returns after a store of the same size: the value cut to the size, then widened;
      bytes are sign-extended, halves are not, and a 32-bit word comes back as it was. */
  lemma {:induction false} StoredThenLoaded(value: int, size: nat)
    requires AccessSize(size)
    ensures size == 1 ==> Widen(EncodeLE(value, size)) == if value % 256 < 128 then value % 256 else value % 256 - 256
    ensures size == 2 ==> Widen(EncodeLE(value, size)) == value % 65536
    ensures size == 4 && -0x8000_0000 <= value < 0x8000_0000 ==> Widen(EncodeLE(value, size)) == value
  {
    DecodeEncode(value, size);
    assert Pow256(1) == 256 && Pow256(2) == 65536;
    if size == 4 && -0x8000_0000 <= value < 0x8000_0000 {
      WordIsFourBytes();
      IntAsWord(value);
    }
  }

  lemma IntAsWord(value: int)
    requires -0x8000_0000 <= value < 0x8000_0000
    ensures value % WORD_LIMIT == if value < 0 then value + WORD_LIMIT else value
  {
    if value < 0 {
      RemainderIs(value, WORD_LIMIT, -1, value + WORD_LIMIT);
    }
  }

  function WriteCells(m: seq<Cell>, va: nat, bytes: seq<Byte>): (r: seq<Cell>)
    requires va + |bytes| <= |m|
    ensures |r| == |m|
    ensures forall a :: 0 <= a < |m| ==> r[a] == if va <= a < va + |bytes| then Known(bytes[a - va]) else m[a]
  {
    m[..va] + seq(|bytes|, k requires 0 <= k < |bytes| => Known(bytes[k])) + m[va + |bytes|..]
  }

  lemma WriteWf(s: State, va: nat, size: nat, value: int)
    requires Wf(s) && AccessSize(size)
    ensures Wf(WriteMem(s, va, size, value).1)
  {
    TranslateWf(s, va, size, true);
  }

  /** A write that translates changes exactly the flat bytes it addresses. */
  lemma {:induction false} WriteAgrees(s: State, va: nat, size: nat, value: int, flat: Flat)
    requires Wf(s) && Coherent(s, flat) && AccessSize(size) && s.current in s.spaces
    requires WriteMem(s, va, size, value).0.NoException?
    requires va + size <= |flat[s.current]|
    ensures Coherent(WriteMem(s, va, size, value).1,
                     flat[s.current := WriteCells(flat[s.current], va, EncodeLE(value, size))])
  {
    TranslateWf(s, va, size, true);
    TranslateCoherent(s, va, size, true, flat);
    AlignedFits(va, size);
    var bytes, pa, s1 := EncodeLE(value, size), Translate(s, va, size, true).1, Translate(s, va, size, true).2;
    var r := WriteMem(s, va, size, value).1;
    var f, v0, o0 := pa / PAGE_SIZE, va / PAGE_SIZE, va % PAGE_SIZE;
    var m := WriteCells(flat[s.current], va, bytes);
    var flat' := flat[s.current := m];
    forall p, v | p in r.spaces && 0 <= v < |r.spaces[p].pageTable| ensures PageOK(r, p, v, CellsOf(flat'[p], v)) {
      assert PageOK(s1, p, v, CellsOf(flat[p], v));
      if p == s.current && v == v0 {
        forall g | 0 <= g < |r.ipt| && Holds(r.ipt[g], p, v) ensures g == f {
          assert SamePage(s.ipt[f], s.ipt[g]);
        }
        assert r.frames[f] == Splice(s.frames[f], o0, bytes);
        WrittenPageMatches(flat[p], va, bytes, s.frames[f]);
      } else {
        if p == s.current { OtherPageSame(flat[p], va, bytes, v); }
        assert CellsOf(flat'[p], v) == CellsOf(flat[p], v);
        assert !Holds(r.ipt[f], p, v);
      }
    }
  }

  /** In the page written to, the cells and the frame change alike. */
  lemma WrittenPageMatches(m: seq<Cell>, va: nat, bytes: seq<Byte>, frame: Page)
    requires va + |bytes| <= |m| && va % PAGE_SIZE + |bytes| <= PAGE_SIZE && (va / PAGE_SIZE + 1) * PAGE_SIZE <= |m|
    requires PageMatches(CellsOf(m, va / PAGE_SIZE), frame)
    ensures PageMatches(CellsOf(WriteCells(m, va, bytes), va / PAGE_SIZE), Splice(frame, va % PAGE_SIZE, bytes))
  {
    var v, o0 := va / PAGE_SIZE, va % PAGE_SIZE;
    var was, now := CellsOf(m, v), CellsOf(WriteCells(m, va, bytes), v);
    forall o | 0 <= o < PAGE_SIZE && now[o].Known? ensures Splice(frame, o0, bytes)[o] == now[o].b {
      assert now[o] == WriteCells(m, va, bytes)[v * PAGE_SIZE + o];
      assert va <= v * PAGE_SIZE + o < va + |bytes| <==> o0 <= o < o0 + |bytes|;
      if !(o0 <= o < o0 + |bytes|) { assert now[o] == was[o]; }
    }
  }

  lemma OtherPageSame(m: seq<Cell>, va: nat, bytes: seq<Byte>, v: nat)
    requires va + |bytes| <= |m| && va % PAGE_SIZE + |bytes| <= PAGE_SIZE && (v + 1) * PAGE_SIZE <= |m| && v != va / PAGE_SIZE
    ensures CellsOf(WriteCells(m, va, bytes), v) == CellsOf(m, v)
  {
    assert v < va / PAGE_SIZE || va / PAGE_SIZE < v;
  }

  // ---- context switch, Fork and Exec ----

  ghost predicate DirtyFrom(tlb: seq<TranslationEntry>, from: nat, f: nat) {
    exists i :: from <= i < |tlb| && tlb[i].valid && tlb[i].physicalPage == f && tlb[i].dirty
  }

  /** Copy-back leaves exactly the dirty frames dirty: the IPT ends up knowing what the TLB knew. */
  lemma {:induction false} CopyBackDirty(ipt: seq<IPTEntry>, tlb: seq<TranslationEntry>, from: nat)
    requires from <= |tlb|
    requires forall i :: 0 <= i < |tlb| && tlb[i].valid ==> 0 <= tlb[i].physicalPage < |ipt|
    requires forall i :: from <= i < |tlb| && tlb[i].valid && ipt[tlb[i].physicalPage].dirty ==> tlb[i].dirty
    requires forall i, j :: from <= i < j < |tlb| && tlb[i].valid && tlb[j].valid ==>
               tlb[i].physicalPage != tlb[j].physicalPage
    ensures var r := CopyBack(ipt, tlb, from);
            forall f :: 0 <= f < |ipt| ==>
              r[f] == ipt[f].(dirty := r[f].dirty) && (r[f].dirty <==> ipt[f].dirty || DirtyFrom(tlb, from, f))
    decreases |tlb| - from
  {
    if from < |tlb| {
      var e := tlb[from];
      var ipt1 := if e.valid then ipt[e.physicalPage := ipt[e.physicalPage].(dirty := e.dirty)] else ipt;
      CopyBackDirty(ipt1, tlb, from + 1);
      forall f | 0 <= f < |ipt|
        ensures ipt1[f].dirty || DirtyFrom(tlb, from + 1, f) <==> ipt[f].dirty || DirtyFrom(tlb, from, f)
      {
        if DirtyFrom(tlb, from, f) && !DirtyFrom(tlb, from + 1, f) {
          assert e.valid && e.physicalPage == f && e.dirty;
        }
      }
    }
  }

  lemma SwitchCopies(s: State)
    requires Wf(s)
    ensures var r := CopyBack(s.ipt, s.tlb);
            forall f :: 0 <= f < |s.ipt| ==>
              r[f] == s.ipt[f].(dirty := r[f].dirty) && (r[f].dirty <==> Dirty(s.ipt, s.tlb, f))
  {
    forall i, j | 0 <= i < j < |s.tlb| && s.tlb[i].valid && s.tlb[j].valid
      ensures s.tlb[i].physicalPage != s.tlb[j].physicalPage
    {
      assert Mirrors(s.tlb[i], s.ipt, s.current) && Mirrors(s.tlb[j], s.ipt, s.current);
    }
    forall i | 0 <= i < |s.tlb| && s.tlb[i].valid && s.ipt[s.tlb[i].physicalPage].dirty ensures s.tlb[i].dirty {
      assert Mirrors(s.tlb[i], s.ipt, s.current);
    }
    CopyBackDirty(s.ipt, s.tlb, 0);
    assert forall f :: TlbDirty(s.tlb, f) <==> DirtyFrom(s.tlb, 0, f);
  }

  lemma SwitchWf(s: State, next: SpaceId)
    requires Wf(s)
    ensures Wf(SwitchTo(s, next))
  {
    SwitchCopies(s);
    var r := SwitchTo(s, next);
    forall f, g | 0 <= f < |r.ipt| && 0 <= g < |r.ipt| && SamePage(r.ipt[f], r.ipt[g]) ensures f == g {
      assert SamePage(s.ipt[f], s.ipt[g]);
    }
  }

  lemma SwitchCoherent(s: State, next: SpaceId, flat: Flat)
    requires Wf(s) && Coherent(s, flat)
    ensures Coherent(SwitchTo(s, next), flat)
  {
    SwitchCopies(s);
    var r := SwitchTo(s, next);
    forall p, v | p in r.spaces && 0 <= v < |r.spaces[p].pageTable| ensures PageOK(r, p, v, CellsOf(flat[p], v)) {
      assert PageOK(s, p, v, CellsOf(flat[p], v));
      assert forall f :: 0 <= f < |s.ipt| ==> (Holds(s.ipt[f], p, v) <==> Holds(r.ipt[f], p, v));
    }
  }

  /** The guard of Fork's and Exec's flush: no valid slot is dirty for a frame the IPT thinks clean. */
  ghost predicate FlushLosesNothing(tlb: seq<TranslationEntry>, ipt: seq<IPTEntry>) {
    forall f :: 0 <= f < |ipt| && TlbDirty(tlb, f) ==> ipt[f].dirty
  }

  lemma FlushCoherent(s: State, flat: Flat)
    requires Coherent(s, flat) && FlushLosesNothing(s.tlb, s.ipt)
    ensures Coherent(FlushWithoutCopyBack(s), flat)
  {
    var r := FlushWithoutCopyBack(s);
    forall p, v | p in r.spaces && 0 <= v < |r.spaces[p].pageTable| ensures PageOK(r, p, v, CellsOf(flat[p], v)) {
      assert PageOK(s, p, v, CellsOf(flat[p], v));
      forall f | 0 <= f < |s.ipt| && Dirty(s.ipt, s.tlb, f) ensures r.ipt[f].dirty {
      }
    }
  }

  /** What a fresh address space reads as: the executable's bytes, then zeros; unknown past the file's end. */
  function InitialCell(space: AddrSpace, a: nat): (c: Cell)
    requires a / PAGE_SIZE < |space.pageTable|
  {
    var pte := space.pageTable[a / PAGE_SIZE];
    if pte.location.InExecutable? then
      var at := pte.byteOffset + a % PAGE_SIZE;
      if at < |space.executable| then Known(space.executable[at]) else Unknown
    else Known(0)
  }

  /** What the page table of a new space makes its memory start as. */
  function InitialCells(space: AddrSpace): (m: seq<Cell>)
    ensures |m| == PAGE_SIZE * |space.pageTable|
    ensures forall a :: 0 <= a < |m| ==> m[a] == InitialCell(space, a)
  {
    seq(PAGE_SIZE * |space.pageTable|, a requires 0 <= a < PAGE_SIZE * |space.pageTable| => InitialCell(space, a))
  }

  function StackCells(): (m: seq<Cell>)
    ensures |m| == PAGE_SIZE * STACK_PAGES && forall a :: 0 <= a < |m| ==> m[a] == Known(0)
  {
    seq(PAGE_SIZE * STACK_PAGES, _ => Known(0))
  }

  /** Fork_Syscall: a new stack for the current space, then the flush. */
  function Fork(s: State): State
    requires s.current in s.spaces
  {
    FlushWithoutCopyBack(AllocateStack(s))
  }

  /** Exec_Syscall: a new address space, then the flush. */
  function Exec(s: State, id: SpaceId, space: AddrSpace): State {
    FlushWithoutCopyBack(s.(spaces := s.spaces[id := space]))
  }

  ghost predicate FreshSpace(space: AddrSpace) {
    forall v :: 0 <= v < |space.pageTable| ==>
      !space.pageTable[v].location.InSwapFile? && space.pageTable[v].swapPageIndex == -1
  }

  lemma ForkWf(s: State)
    requires Wf(s) && s.current in s.spaces
    ensures Wf(Fork(s))
  {
    var r := Fork(s);
    assert forall v :: |s.spaces[s.current].pageTable| <= v < |r.spaces[s.current].pageTable| ==>
                         r.spaces[s.current].pageTable[v] == FRESH_PTE;
    assert forall p, v: nat, k :: HasSlot(r.spaces, p, v, k) ==> HasSlot(s.spaces, p, v, k);
  }

  lemma ExecWf(s: State, id: SpaceId, space: AddrSpace)
    requires Wf(s) && id !in s.spaces && id != NULL_SPACE && FreshSpace(space)
    ensures Wf(Exec(s, id, space))
  {
    var r := Exec(s, id, space);
    assert forall p, v, k :: HasSlot(r.spaces, p, v, k) ==> HasSlot(s.spaces, p, v, k);
  }

  lemma ForkCoherent(s: State, flat: Flat)
    requires Wf(s) && s.current in s.spaces && Coherent(s, flat) && FlushLosesNothing(s.tlb, s.ipt)
    ensures Coherent(Fork(s), flat[s.current := flat[s.current] + StackCells()])
  {
    var a := AllocateStack(s);
    var flat' := flat[s.current := flat[s.current] + StackCells()];
    forall p, v | p in a.spaces && 0 <= v < |a.spaces[p].pageTable| ensures PageOK(a, p, v, CellsOf(flat'[p], v)) {
      if v < |s.spaces[p].pageTable| {
        assert PageOK(s, p, v, CellsOf(flat[p], v));
        assert CellsOf(flat'[p], v) == CellsOf(flat[p], v);
      } else {
        assert a.spaces[p].pageTable[v] == FRESH_PTE;
        assert forall o :: 0 <= o < PAGE_SIZE ==> CellsOf(flat'[p], v)[o] == Known(0);
      }
    }
    assert Coherent(a, flat');
    FlushCoherent(a, flat');
  }

  /** The backing of a new page has the bytes the page starts with. */
  lemma NewPageOK(swap: seq<Page>, space: AddrSpace, v: nat)
    requires FreshSpace(space) && v < |space.pageTable|
    ensures BackingMatches(swap, space, v, CellsOf(InitialCells(space), v))
  {
    var cells := CellsOf(InitialCells(space), v);
    forall o | 0 <= o < PAGE_SIZE ensures cells[o] == InitialCell(space, v * PAGE_SIZE + o) {
      assert (v * PAGE_SIZE + o) / PAGE_SIZE == v && (v * PAGE_SIZE + o) % PAGE_SIZE == o;
    }
  }

  lemma ExecCoherent(s: State, id: SpaceId, space: AddrSpace, flat: Flat)
    requires Wf(s) && id !in s.spaces && FreshSpace(space) && Coherent(s, flat) && FlushLosesNothing(s.tlb, s.ipt)
    ensures Coherent(Exec(s, id, space), flat[id := InitialCells(space)])
  {
    var a := s.(spaces := s.spaces[id := space]);
    var flat' := flat[id := InitialCells(space)];
    forall p, v | p in a.spaces && 0 <= v < |a.spaces[p].pageTable| ensures PageOK(a, p, v, CellsOf(flat'[p], v)) {
      if p != id {
        assert PageOK(s, p, v, CellsOf(flat[p], v));
      } else {
        NewPageOK(a.swap, space, v);
        assert forall f :: 0 <= f < |s.ipt| ==> !Holds(s.ipt[f], id, v);
      }
    }
    assert Coherent(a, flat');
    FlushCoherent(a, flat');
  }
}

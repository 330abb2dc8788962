/** Demand paging as a state machine over values: the TLB, the inverted page table (IPT),
    the per-process page tables, the swap file and the queue of resident frames.
    `PagingMachine` (Paging.dfy) is the imperative code proved equal to these functions;
    `PagingProofs` proves what they achieve. */
module PagingModel {
  import opened BitMaps
  import opened Bytes
  import opened Options

  const PAGE_SIZE := 128
  const TLB_SIZE := 4
  /** divRoundUp(UserStackSize, PageSize) */
  const STACK_PAGES := 8
  /** The processID of an IPT entry that was never used, and the space of a kernel-only thread. */
  const NULL_SPACE := 0

  type Page = p: seq<Byte> | |p| == PAGE_SIZE witness seq(PAGE_SIZE, _ => 0)
  type SpaceId = nat

  datatype TranslationEntry = TranslationEntry(
    virtualPage: int, physicalPage: int, valid: bool, readOnly: bool, use: bool, dirty: bool)

  datatype IPTEntry = IPTEntry(
    virtualPage: int, physicalPage: int, valid: bool, readOnly: bool, use: bool, dirty: bool, processID: SpaceId)

  datatype Location = InExecutable | InSwapFile | Neither

  datatype PageTableEntry = PageTableEntry(location: Location, byteOffset: nat, swapPageIndex: int)

  datatype AddrSpace = AddrSpace(executable: seq<Byte>, pageTable: seq<PageTableEntry>)

  datatype State = State(
    frames: seq<Page>,
    ipt: seq<IPTEntry>,
    tlb: seq<TranslationEntry>,
    tlbIndex: nat,
    inUse: seq<bool>,
    queue: seq<nat>,
    swap: seq<Page>,
    swapUsed: seq<bool>,
    spaces: map<SpaceId, AddrSpace>,
    current: SpaceId,
    random: bool)

  datatype Exception = NoException | PageFault | ReadOnly | BusError | AddressError

  // ---- searches ----

  predicate Holds(e: IPTEntry, space: SpaceId, vpn: int) {
    e.valid && e.virtualPage == vpn && e.processID == space
  }

  /** findIPTIndex: the first frame that holds page `vpn` of `space`, or -1. */
  function FindIPTIndex(ipt: seq<IPTEntry>, space: SpaceId, vpn: int, from: nat := 0): (i: int)
    requires from <= |ipt|
    ensures i == -1 || from <= i < |ipt|
    ensures i == -1 ==> forall k :: from <= k < |ipt| ==> !Holds(ipt[k], space, vpn)
    ensures i != -1 ==> Holds(ipt[i], space, vpn) && forall k :: from <= k < i ==> !Holds(ipt[k], space, vpn)
    decreases |ipt| - from
  {
    if from == |ipt| then -1
    else if Holds(ipt[from], space, vpn) then from
    else FindIPTIndex(ipt, space, vpn, from + 1)
  }

  /** The hardware search: the first valid TLB slot for `vpn`, or -1. */
  function FindTLB(tlb: seq<TranslationEntry>, vpn: int, from: nat := 0): (i: int)
    requires from <= |tlb|
    ensures i == -1 || from <= i < |tlb|
    ensures i == -1 ==> forall k :: from <= k < |tlb| ==> !(tlb[k].valid && tlb[k].virtualPage == vpn)
    ensures i != -1 ==> tlb[i].valid && tlb[i].virtualPage == vpn
                        && forall k :: from <= k < i ==> !(tlb[k].valid && tlb[k].virtualPage == vpn)
    decreases |tlb| - from
  {
    if from == |tlb| then -1
    else if tlb[from].valid && tlb[from].virtualPage == vpn then from
    else FindTLB(tlb, vpn, from + 1)
  }

  /** The first valid TLB slot that maps frame `ppn`, or -1. */
  function FindTLBFrame(tlb: seq<TranslationEntry>, ppn: int, from: nat := 0): (i: int)
    requires from <= |tlb|
    ensures i == -1 || from <= i < |tlb|
    ensures i == -1 ==> forall k :: from <= k < |tlb| ==> !(tlb[k].valid && tlb[k].physicalPage == ppn)
    ensures i != -1 ==> tlb[i].valid && tlb[i].physicalPage == ppn
                        && forall k :: from <= k < i ==> !(tlb[k].valid && tlb[k].physicalPage == ppn)
    decreases |tlb| - from
  {
    if from == |tlb| then -1
    else if tlb[from].valid && tlb[from].physicalPage == ppn then from
    else FindTLBFrame(tlb, ppn, from + 1)
  }

  // ---- the shape every field keeps ----

  ghost predicate FramesInRange(queue: seq<nat>, tlb: seq<TranslationEntry>, n: nat) {
    && (forall k :: 0 <= k < |queue| ==> queue[k] < n)
    && (forall i :: 0 <= i < |tlb| && tlb[i].valid ==> 0 <= tlb[i].physicalPage < n)
  }

  /** Every valid IPT entry names a page of a known process, and every used frame has one. */
  ghost predicate OwnersKnown(ipt: seq<IPTEntry>, inUse: seq<bool>, spaces: map<SpaceId, AddrSpace>) {
    && |inUse| == |ipt|
    && (forall f :: 0 <= f < |ipt| && ipt[f].valid ==>
        ipt[f].processID in spaces && 0 <= ipt[f].virtualPage < |spaces[ipt[f].processID].pageTable|)
    && (forall f :: 0 <= f < |ipt| && inUse[f] ==> ipt[f].valid)
  }

  ghost predicate SlotsInRange(space: AddrSpace, n: nat) {
    forall v :: 0 <= v < |space.pageTable| ==>
      && space.pageTable[v].swapPageIndex < n
      && (space.pageTable[v].location.InSwapFile? ==> 0 <= space.pageTable[v].swapPageIndex)
  }

  /** Sizes and index ranges only; enough for the functions below to be defined. */
  ghost predicate Shaped(s: State) {
    && |s.frames| == |s.ipt| > 0
    && |s.tlb| == TLB_SIZE && s.tlbIndex < TLB_SIZE
    && |s.swap| == |s.swapUsed|
    && FramesInRange(s.queue, s.tlb, |s.ipt|)
    && OwnersKnown(s.ipt, s.inUse, s.spaces)
    && (forall p :: p in s.spaces ==> SlotsInRange(s.spaces[p], |s.swap|))
  }

  /** When every frame is taken, FIFO eviction has a frame to take: SynchList::Remove does not block. */
  predicate CanEvict(s: State) {
    !s.random && FirstClear(s.inUse) == -1 ==> s.queue != []
  }

  // ---- eviction ----

  function InvalidateFrame(tlb: seq<TranslationEntry>, ppn: int): (r: seq<TranslationEntry>)
    ensures |r| == |tlb|
  {
    var i := FindTLBFrame(tlb, ppn);
    if i == -1 then tlb else tlb[i := tlb[i].(valid := false)]
  }

  /** The frame evictAPage picks: the head of the FIFO queue, or Random() % NumPhysPages. */
  function Victim(s: State, draw: nat): (ppn: nat)
    requires |s.ipt| > 0 && (forall k :: 0 <= k < |s.queue| ==> s.queue[k] < |s.ipt|)
    requires !s.random ==> s.queue != []
    ensures ppn < |s.ipt|
  {
    if s.random then draw % |s.ipt| else s.queue[0]
  }

  function SetPTE(spaces: map<SpaceId, AddrSpace>, p: SpaceId, v: nat, e: PageTableEntry): map<SpaceId, AddrSpace>
    requires p in spaces && v < |spaces[p].pageTable|
  {
    spaces[p := spaces[p].(pageTable := spaces[p].pageTable[v := e])]
  }

  /** evictAPage up to the write to swap: dequeue the victim and drop its TLB entry. */
  function Detach(s: State, draw: nat): (r: State)
    requires Shaped(s) && (!s.random ==> s.queue != [])
  {
    var ppn := Victim(s, draw);
    s.(queue := if s.random then s.queue else s.queue[1..],
       tlb := if s.ipt[ppn].processID == s.current then InvalidateFrame(s.tlb, ppn) else s.tlb)
  }

  /** The write to swap: a page whose IPT entry is dirty goes to its swap slot, allocated on first use.
      None when the swap file is full, which halts the machine. */
  function SwapOut(s: State, ppn: nat): (r: Option<State>)
    requires Shaped(s) && ppn < |s.ipt| && s.ipt[ppn].valid
  {
    if !s.ipt[ppn].dirty then Some(s)
    else
      var p, v := s.ipt[ppn].processID, s.ipt[ppn].virtualPage;
      var pte := s.spaces[p].pageTable[v];
      var slot := if pte.swapPageIndex < 0 then FirstClear(s.swapUsed) else pte.swapPageIndex;
      if slot == -1 then None
      else
        Some(s.(swapUsed := s.swapUsed[slot := s.swapUsed[slot] || pte.swapPageIndex < 0],
                swap := s.swap[slot := s.frames[ppn]],
                spaces := SetPTE(s.spaces, p, v, pte.(location := InSwapFile, swapPageIndex := slot))))
  }

  lemma DetachKeepsShape(s: State, draw: nat)
    requires Shaped(s) && (!s.random ==> s.queue != [])
    ensures var d := Detach(s, draw);
            Shaped(d) && d.ipt == s.ipt && d.inUse == s.inUse && d.spaces == s.spaces && d.current == s.current
  {
  }

  lemma SwapOutKeepsShape(s: State, ppn: nat)
    requires Shaped(s) && ppn < |s.ipt| && s.ipt[ppn].valid
    ensures SwapOut(s, ppn).Some? ==>
      var r := SwapOut(s, ppn).value;
      && Shaped(r) && r.ipt == s.ipt && r.current == s.current && r.spaces.Keys == s.spaces.Keys
      && forall p :: p in s.spaces ==> |r.spaces[p].pageTable| == |s.spaces[p].pageTable|
  {
  }

  // ---- page fault ----

  /** OpenFile::ReadAt of one page: bytes past the end of the file leave the buffer as it was. */
  function ReadPageAt(file: seq<Byte>, position: nat, prior: Page): (r: Page) {
    seq(PAGE_SIZE, o requires 0 <= o < PAGE_SIZE => if position + o < |file| then file[position + o] else prior[o])
  }

  function ZeroPage(): (r: Page)
    ensures forall o :: 0 <= o < PAGE_SIZE ==> r[o] == 0
  {
    seq(PAGE_SIZE, (o: nat) => 0)
  }

  /** What loadPageIntoIPT puts into the frame for a page-table entry. */
  function LoadedPage(s: State, pte: PageTableEntry, exec: seq<Byte>, prior: Page): (r: Page)
    requires pte.location.InSwapFile? ==> 0 <= pte.swapPageIndex < |s.swap|
  {
    if pte.location.InExecutable? then ReadPageAt(exec, pte.byteOffset, prior)
    else if pte.location.InSwapFile? then s.swap[pte.swapPageIndex]
    else ZeroPage()
  }

  /** Put page `vpn` of the current space into frame `ppn` and record it. */
  function Install(s: State, ppn: nat, vpn: nat): (r: State)
    requires Shaped(s) && ppn < |s.ipt|
    requires s.current in s.spaces && vpn < |s.spaces[s.current].pageTable|
  {
    var space := s.spaces[s.current];
    s.(queue := if s.random then s.queue else s.queue + [ppn],
       frames := s.frames[ppn := LoadedPage(s, space.pageTable[vpn], space.executable, s.frames[ppn])],
       ipt := s.ipt[ppn := IPTEntry(vpn, ppn, true, false, false, false, s.current)])
  }

  /** loadPageIntoIPT: a free frame if there is one, an evicted one otherwise. */
  function LoadPage(s: State, vpn: nat, draw: nat): (r: Option<(State, nat)>)
    requires Shaped(s) && CanEvict(s)
    requires s.current in s.spaces && vpn < |s.spaces[s.current].pageTable|
  {
    var free := FirstClear(s.inUse);
    if free != -1 then Some((Install(s, free, vpn).(inUse := s.inUse[free := true]), free))
    else
      var ppn := Victim(s, draw);
      DetachKeepsShape(s, draw);
      SwapOutKeepsShape(Detach(s, draw), ppn);
      match SwapOut(Detach(s, draw), ppn)
      case None => None
      case Some(s1) => Some((Install(s1, ppn, vpn), ppn))
  }

  /** updateTLBFromIPT: copy the outgoing slot's dirty bit back, then load the slot. */
  function UpdateTLB(s: State, ppn: nat): (r: State)
    requires |s.tlb| == TLB_SIZE && s.tlbIndex < TLB_SIZE && ppn < |s.ipt|
    requires s.tlb[s.tlbIndex].valid ==> 0 <= s.tlb[s.tlbIndex].physicalPage < |s.ipt|
  {
    var out := s.tlb[s.tlbIndex];
    var ipt := if out.valid then s.ipt[out.physicalPage := s.ipt[out.physicalPage].(dirty := out.dirty)] else s.ipt;
    var e := ipt[ppn];
    s.(ipt := ipt,
       tlb := s.tlb[s.tlbIndex := TranslationEntry(e.virtualPage, e.physicalPage, e.valid, e.readOnly, e.use, e.dirty)],
       tlbIndex := (s.tlbIndex + 1) % TLB_SIZE)
  }

  /** HandlePageFault for page `vpn` of the current space; None when the machine halts on a full swap file. */
  function HandlePageFault(s: State, vpn: nat, draw: nat): (r: Option<State>)
    requires Shaped(s) && CanEvict(s)
    requires s.current in s.spaces && vpn < |s.spaces[s.current].pageTable|
  {
    var ppn := FindIPTIndex(s.ipt, s.current, vpn);
    if ppn != -1 then Some(UpdateTLB(s, ppn))
    else
      match LoadPage(s, vpn, draw)
      case None => None
      case Some((s1, f)) => Some(UpdateTLB(s1, f))
  }

  // ---- memory accesses ----

  /** Machine::Translate with a TLB: the exception, the physical address and the use and dirty bits set. */
  function Translate(s: State, va: nat, size: nat, writing: bool): (r: (Exception, nat, State))
    requires |s.tlb| == TLB_SIZE
    ensures r.0.NoException? ==>
      && r.1 / PAGE_SIZE < |s.frames|
      && r.1 % PAGE_SIZE == va % PAGE_SIZE
  {
    if (size == 4 && va % 4 != 0) || (size == 2 && va % 2 != 0) then (AddressError, 0, s)
    else
      var i := FindTLB(s.tlb, va / PAGE_SIZE);
      if i == -1 then (PageFault, 0, s)
      else
        var e := s.tlb[i];
        if e.readOnly && writing then (ReadOnly, 0, s)
        else if e.physicalPage < 0 || e.physicalPage >= |s.frames| then (BusError, 0, s)
        else
          (NoException, e.physicalPage * PAGE_SIZE + va % PAGE_SIZE,
           s.(tlb := s.tlb[i := e.(use := true, dirty := e.dirty || writing)]))
  }

  /** How Machine::ReadMem widens the bytes to an int: mainMemory is signed char, halves are unsigned short. */
  function Widen(bytes: seq<Byte>): (r: int)
  {
    var u := DecodeLE(bytes);
    if |bytes| == 1 then (if u >= 128 then u - 256 else u)
    else if |bytes| == 4 then (if u >= 0x8000_0000 then u - 0x1_0000_0000 else u)
    else u
  }

  function Splice(page: Page, o: nat, bytes: seq<Byte>): (r: Page)
    requires o + |bytes| <= PAGE_SIZE
    ensures forall k :: 0 <= k < PAGE_SIZE ==> r[k] == if o <= k < o + |bytes| then bytes[k - o] else page[k]
  {
    page[..o] + bytes + page[o + |bytes|..]
  }

  predicate AccessSize(size: nat) { size == 1 || size == 2 || size == 4 }

  /** An aligned access stays inside its page. */
  lemma AlignedFits(va: nat, size: nat)
    requires AccessSize(size)
    requires size == 4 ==> va % 4 == 0
    requires size == 2 ==> va % 2 == 0
    ensures va % PAGE_SIZE + size <= PAGE_SIZE
  {
    var q, o := va / PAGE_SIZE, va % PAGE_SIZE;
    assert va == PAGE_SIZE * q + o;
    if size == 4 {
      var w := va / 4;
      assert o == 4 * (w - 32 * q);
    } else if size == 2 {
      var h := va / 2;
      assert o == 2 * (h - 64 * q);
    }
  }

  /** Machine::ReadMem: one attempt; the value is meaningful only when there is no exception. */
  function ReadMem(s: State, va: nat, size: nat): (r: (Exception, int, State))
    requires |s.tlb| == TLB_SIZE && AccessSize(size)
  {
    var (e, pa, s') := Translate(s, va, size, false);
    if !e.NoException? then (e, 0, s)
    else
      AlignedFits(va, size);
      var o := pa % PAGE_SIZE;
      (NoException, Widen(s.frames[pa / PAGE_SIZE][o..o + size]), s')
  }

  /** Machine::WriteMem: one attempt. */
  function WriteMem(s: State, va: nat, size: nat, value: int): (r: (Exception, State))
    requires |s.tlb| == TLB_SIZE && AccessSize(size)
  {
    var (e, pa, s') := Translate(s, va, size, true);
    if !e.NoException? then (e, s)
    else
      AlignedFits(va, size);
      var f := pa / PAGE_SIZE;
      (NoException, s'.(frames := s.frames[f := Splice(s.frames[f], pa % PAGE_SIZE, EncodeLE(value, size))]))
  }

  // ---- scheduling and process creation ----

  /** Copy every valid slot's dirty bit to the IPT, slot by slot from `from` on. */
  function CopyBack(ipt: seq<IPTEntry>, tlb: seq<TranslationEntry>, from: nat := 0): (r: seq<IPTEntry>)
    requires from <= |tlb|
    requires forall i :: 0 <= i < |tlb| && tlb[i].valid ==> 0 <= tlb[i].physicalPage < |ipt|
    ensures |r| == |ipt|
    decreases |tlb| - from
  {
    if from == |tlb| then ipt
    else
      var e := tlb[from];
      CopyBack(if e.valid then ipt[e.physicalPage := ipt[e.physicalPage].(dirty := e.dirty)] else ipt, tlb, from + 1)
  }

  function InvalidateAll(tlb: seq<TranslationEntry>): (r: seq<TranslationEntry>)
    ensures |r| == |tlb|
    ensures forall i :: 0 <= i < |tlb| ==> r[i] == tlb[i].(valid := false)
  {
    seq(|tlb|, i requires 0 <= i < |tlb| => tlb[i].(valid := false))
  }

  /** The TLB part of Scheduler::Run: flush with copy-back, then the next thread's space is current. */
  function SwitchTo(s: State, next: SpaceId): (r: State)
    requires Shaped(s)
  {
    s.(ipt := CopyBack(s.ipt, s.tlb), tlb := InvalidateAll(s.tlb), current := next)
  }

  const FRESH_PTE := PageTableEntry(Neither, 0, -1)

  /** AllocateStack: the current page table grows by one stack, every old entry copied. */
  function AllocateStack(s: State): (r: State)
    requires s.current in s.spaces
  {
    var space := s.spaces[s.current];
    s.(spaces := s.spaces[s.current := space.(pageTable := space.pageTable + seq(STACK_PAGES, _ => FRESH_PTE))])
  }

  /** The flush of Fork_Syscall and Exec_Syscall, which copies nothing back. */
  function FlushWithoutCopyBack(s: State): (r: State) {
    s.(tlb := InvalidateAll(s.tlb))
  }

  /** The AddrSpace constructor: `loaded` pages from the executable, the rest and one stack zero-filled. */
  function NewSpace(executable: seq<Byte>, codeStart: nat, loaded: nat, total: nat): (r: AddrSpace)
    requires loaded <= total
    ensures |r.pageTable| == total + STACK_PAGES
  {
    AddrSpace(executable, seq(total + STACK_PAGES, (v: nat) =>
      if v < loaded then PageTableEntry(InExecutable, codeStart + v * PAGE_SIZE, -1) else FRESH_PTE))
  }

  /** System start-up: nothing resident, no process yet. */
  function Boot(numFrames: nat, swapPages: nat, random: bool): (s: State)
    requires numFrames > 0
  {
    State(seq(numFrames, _ => ZeroPage()),
          seq(numFrames, i => IPTEntry(-1, i, false, false, false, false, NULL_SPACE)),
          seq(TLB_SIZE, _ => TranslationEntry(0, 0, false, false, false, false)), 0,
          seq(numFrames, _ => false), [],
          seq(swapPages, _ => ZeroPage()), seq(swapPages, _ => false),
          map[], NULL_SPACE, random)
  }
}

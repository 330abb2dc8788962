/** Which frame a fault takes, which TLB slot it fills, and when the machine halts: over every run, first in is first
    out, and the slots go round. */
module PagingOrders {
  import opened BitMaps
  import opened Bytes
  import opened Options
  import opened PagingModel
  import opened PagingProofs
  import opened PagingRuns

  // ---- the effect of one fault ----

  predicate SameHolder(d: IPTEntry, e: IPTEntry) { d.valid == e.valid && (d.valid ==> SamePage(d, e)) }

  /** The frames hold the pages they held. */
  predicate SameHolders(ipt: seq<IPTEntry>, ipt': seq<IPTEntry>) {
    |ipt'| == |ipt| && forall f :: 0 <= f < |ipt| ==> SameHolder(ipt[f], ipt'[f])
  }

  lemma RefillKeepsHolders(s: State, ppn: nat)
    requires Wf(s) && ppn < |s.ipt|
    ensures SameHolders(s.ipt, UpdateTLB(s, ppn).ipt)
  {
  }

  /** A fault on a page that is in a frame moves no page and no byte. */
  lemma ResidentFault(s: State, vpn: nat, draw: nat)
    requires Wf(s) && CanEvict(s) && s.current in s.spaces && vpn < |s.spaces[s.current].pageTable|
    requires !Absent(s.ipt, s.current, vpn)
    ensures HandlePageFault(s, vpn, draw).Some?
    ensures var r := HandlePageFault(s, vpn, draw).value;
            && SameHolders(s.ipt, r.ipt) && r.frames == s.frames && r.swap == s.swap && r.swapUsed == s.swapUsed
            && r.spaces == s.spaces && r.queue == s.queue && r.inUse == s.inUse && r.random == s.random
  {
    RefillKeepsHolders(s, FindIPTIndex(s.ipt, s.current, vpn));
  }

  /** The oldest frame in the queue, or the one the random number falls on. */
  predicate IsVictim(s: State, draw: nat, g: nat) {
    if s.random then |s.ipt| > 0 && g == draw % |s.ipt| else s.queue != [] && g == s.queue[0]
  }

  predicate FirstFree(inUse: seq<bool>, g: nat) { g < |inUse| && !inUse[g] && forall f :: 0 <= f < g ==> inUse[f] }

  predicate AllUsed(inUse: seq<bool>) { forall f :: 0 <= f < |inUse| ==> inUse[f] }

  /** Frame g holds the new page, and every other frame the page and the bytes it had. */
  predicate OneFrameTaken(s: State, r: State, vpn: nat, g: nat) {
    && g < |s.ipt| == |r.ipt| && |s.frames| == |r.frames| == |s.ipt| && Holds(r.ipt[g], s.current, vpn)
    && forall f :: 0 <= f < |s.ipt| && f != g ==> SameHolder(s.ipt[f], r.ipt[f]) && r.frames[f] == s.frames[f]
  }

  lemma {:induction false} AbsentNotFound(s: State, vpn: nat)
    requires Absent(s.ipt, s.current, vpn)
    ensures FindIPTIndex(s.ipt, s.current, vpn) == -1
  {
  }

  lemma FreeFrameFault(s: State, vpn: nat, draw: nat, g: nat)
    requires Wf(s) && CanEvict(s) && s.current in s.spaces && vpn < |s.spaces[s.current].pageTable|
    requires Absent(s.ipt, s.current, vpn) && FirstFree(s.inUse, g)
    ensures HandlePageFault(s, vpn, draw).Some?
    ensures var r := HandlePageFault(s, vpn, draw).value;
            && OneFrameTaken(s, r, vpn, g) && r.swap == s.swap && r.swapUsed == s.swapUsed && r.spaces == s.spaces
            && r.random == s.random && r.inUse == s.inUse[g := true] && r.queue == if s.random then s.queue else s.queue + [g]
  {
    AbsentNotFound(s, vpn);
    assert FirstClear(s.inUse) == g;
    LoadPageWf(s, vpn, draw);
    RefillKeepsHolders(LoadPage(s, vpn, draw).value.0, g);
  }

  lemma EvictingFault(s: State, vpn: nat, draw: nat, g: nat)
    requires Wf(s) && CanEvict(s) && s.current in s.spaces && vpn < |s.spaces[s.current].pageTable|
    requires Absent(s.ipt, s.current, vpn) && AllUsed(s.inUse) && IsVictim(s, draw, g)
    requires HandlePageFault(s, vpn, draw).Some?
    ensures var r := HandlePageFault(s, vpn, draw).value;
            && OneFrameTaken(s, r, vpn, g) && r.random == s.random && r.inUse == s.inUse
            && r.queue == if s.random then s.queue else s.queue[1..] + [g]
  {
    assert FirstClear(s.inUse) == -1 && Victim(s, draw) == g;
    var s1 := HandledByEviction(s, vpn, draw, g);
    SavedOnly(s, draw, g);
    InstalledOnly(s1, g, vpn);
    RefilledOnly(s, Install(s1, g, vpn), vpn, g);
  }

  lemma HandledByEviction(s: State, vpn: nat, draw: nat, g: nat) returns (s1: State)
    requires Wf(s) && Full(s) && CanEvict(s) && s.current in s.spaces && vpn < |s.spaces[s.current].pageTable|
    requires Absent(s.ipt, s.current, vpn) && g == Victim(s, draw) && HandlePageFault(s, vpn, draw).Some?
    ensures SwapOut(Detach(s, draw), g) == Some(s1) && Shaped(s1) && g < |s1.ipt| && s1.current in s1.spaces
    ensures vpn < |s1.spaces[s1.current].pageTable| && Wf(Install(s1, g, vpn))
    ensures HandlePageFault(s, vpn, draw).value == UpdateTLB(Install(s1, g, vpn), g)
  {
    AbsentNotFound(s, vpn);
    EvictedInstallWf(s, vpn, draw);
    s1 := SwapOut(Detach(s, draw), g).value;
  }

  /** Refilling the TLB after a frame was taken keeps what the frames hold. */
  lemma RefilledOnly(s: State, r1: State, vpn: nat, g: nat)
    requires Wf(r1) && OneFrameTaken(s, r1, vpn, g)
    ensures var r := UpdateTLB(r1, g);
            && OneFrameTaken(s, r, vpn, g) && r.random == r1.random && r.inUse == r1.inUse && r.queue == r1.queue
  {
    RefillKeepsHolders(r1, g);
    var r := UpdateTLB(r1, g);
    forall f | 0 <= f < |s.ipt| && f != g ensures SameHolder(s.ipt[f], r.ipt[f]) {
      assert SameHolder(s.ipt[f], r1.ipt[f]) && SameHolder(r1.ipt[f], r.ipt[f]);
    }
    assert SameHolder(r1.ipt[g], r.ipt[g]);
  }

  lemma SavedOnly(s: State, draw: nat, g: nat)
    requires Wf(s) && Full(s) && g == Victim(s, draw) && SwapOut(Detach(s, draw), g).Some?
    ensures var s1 := SwapOut(Detach(s, draw), g).value;
            && s1.ipt == s.ipt && s1.frames == s.frames && s1.inUse == s.inUse && s1.random == s.random
            && s1.current == s.current && s1.queue == if s.random then s.queue else s.queue[1..]
  {
  }

  lemma InstalledOnly(s: State, g: nat, vpn: nat)
    requires Shaped(s) && g < |s.ipt| && s.current in s.spaces && vpn < |s.spaces[s.current].pageTable|
    ensures var r := Install(s, g, vpn);
            && OneFrameTaken(s, r, vpn, g) && r.random == s.random && r.inUse == s.inUse
            && r.queue == if s.random then s.queue else s.queue + [g]
  {
  }

  lemma SomeFree(inUse: seq<bool>) returns (g: nat)
    requires !AllUsed(inUse)
    ensures FirstFree(inUse, g)
  {
    g := FirstClear(inUse);
  }

  /** A fault on a page in no frame takes exactly one frame: the first free one if any is free, else the oldest or
      the drawn one. */
  lemma FaultTakesOneFrame(s: State, vpn: nat, draw: nat) returns (g: nat)
    requires Wf(s) && CanEvict(s) && s.current in s.spaces && vpn < |s.spaces[s.current].pageTable|
    requires Absent(s.ipt, s.current, vpn) && HandlePageFault(s, vpn, draw).Some?
    ensures OneFrameTaken(s, HandlePageFault(s, vpn, draw).value, vpn, g)
    ensures if AllUsed(s.inUse) then IsVictim(s, draw, g) else FirstFree(s.inUse, g)
  {
    if AllUsed(s.inUse) {
      assert FirstClear(s.inUse) == -1;
      g := Victim(s, draw);
      EvictingFault(s, vpn, draw, g);
    } else {
      g := SomeFree(s.inUse);
      FreeFrameFault(s, vpn, draw, g);
    }
  }

  // ---- first in, first out ----

  /** The frames below n that hold a page they did not hold before. */
  function Filled(ipt: seq<IPTEntry>, ipt': seq<IPTEntry>, n: nat): (r: seq<nat>)
    requires n <= |ipt| == |ipt'|
  {
    if n == 0 then []
    else if ipt'[n - 1].valid && !SamePage(ipt[n - 1], ipt'[n - 1]) then Filled(ipt, ipt', n - 1) + [n - 1]
    else Filled(ipt, ipt', n - 1)
  }

  /** The frames below n that no longer hold the page they held. */
  function Evicted(ipt: seq<IPTEntry>, ipt': seq<IPTEntry>, n: nat): (r: seq<nat>)
    requires n <= |ipt| == |ipt'|
  {
    if n == 0 then []
    else if ipt[n - 1].valid && !SamePage(ipt[n - 1], ipt'[n - 1]) then Evicted(ipt, ipt', n - 1) + [n - 1]
    else Evicted(ipt, ipt', n - 1)
  }

  lemma {:induction false} NothingMoved(ipt: seq<IPTEntry>, ipt': seq<IPTEntry>, n: nat)
    requires SameHolders(ipt, ipt') && n <= |ipt|
    ensures Filled(ipt, ipt', n) == [] && Evicted(ipt, ipt', n) == []
  {
    if n > 0 {
      NothingMoved(ipt, ipt', n - 1);
      assert SameHolder(ipt[n - 1], ipt'[n - 1]);
    }
  }

  lemma {:induction false} OneMoved(ipt: seq<IPTEntry>, ipt': seq<IPTEntry>, g: nat, n: nat)
    requires g < |ipt| == |ipt'| && n <= |ipt| && ipt'[g].valid && !SamePage(ipt[g], ipt'[g])
    requires forall f :: 0 <= f < |ipt| && f != g ==> SameHolder(ipt[f], ipt'[f])
    ensures Filled(ipt, ipt', n) == if g < n then [g] else []
    ensures Evicted(ipt, ipt', n) == if g < n && ipt[g].valid then [g] else []
  {
    if n > 0 {
      OneMoved(ipt, ipt', g, n - 1);
      if n - 1 != g { assert SameHolder(ipt[n - 1], ipt'[n - 1]); }
    }
  }

  /** What a step does to the queue, told from the change of the frames' pages. */
  ghost predicate QueueMoves(s: State, r: State) {
    && |r.ipt| == |s.ipt| && r.random == s.random
    && Evicted(s.ipt, r.ipt, |s.ipt|) + r.queue == s.queue + Filled(s.ipt, r.ipt, |s.ipt|)
  }

  lemma NoMove(s: State, r: State)
    requires SameHolders(s.ipt, r.ipt) && r.queue == s.queue && r.random == s.random
    ensures QueueMoves(s, r)
  {
    NothingMoved(s.ipt, r.ipt, |s.ipt|);
    assert [] + s.queue == s.queue + [];
  }

  lemma FaultMoves(s: State, vpn: nat, draw: nat)
    requires Wf(s) && CanEvict(s) && s.current in s.spaces && vpn < |s.spaces[s.current].pageTable| && !s.random
    requires HandlePageFault(s, vpn, draw).Some?
    ensures QueueMoves(s, HandlePageFault(s, vpn, draw).value)
  {
    var r := HandlePageFault(s, vpn, draw).value;
    if !Absent(s.ipt, s.current, vpn) {
      ResidentFault(s, vpn, draw);
      NoMove(s, r);
    } else if AllUsed(s.inUse) {
      EvictionMoves(s, vpn, draw);
    } else {
      var g := SomeFree(s.inUse);
      FreeFrameFault(s, vpn, draw, g);
      FreeMoves(s, r, vpn, g);
    }
  }

  lemma EvictionMoves(s: State, vpn: nat, draw: nat)
    requires Wf(s) && CanEvict(s) && s.current in s.spaces && vpn < |s.spaces[s.current].pageTable| && !s.random
    requires HandlePageFault(s, vpn, draw).Some? && Absent(s.ipt, s.current, vpn) && AllUsed(s.inUse)
    ensures QueueMoves(s, HandlePageFault(s, vpn, draw).value)
  {
    assert FirstClear(s.inUse) == -1;
    var r, g := HandlePageFault(s, vpn, draw).value, s.queue[0];
    EvictingFault(s, vpn, draw, g);
    TakenMoves(s, r, vpn, g);
    FrontToBack(s.queue, g);
  }

  lemma FreeMoves(s: State, r: State, vpn: nat, g: nat)
    requires Wf(s) && OneFrameTaken(s, r, vpn, g) && Absent(s.ipt, s.current, vpn) && !s.inUse[g]
    requires r.queue == s.queue + [g] && r.random == s.random
    ensures QueueMoves(s, r)
  {
    TakenMoves(s, r, vpn, g);
    NoneFirst(s.queue + [g]);
  }

  lemma NoneFirst(q: seq<nat>)
    ensures [] + q == q
  {
  }

  lemma FrontToBack(q: seq<nat>, g: nat)
    requires q != [] && q[0] == g
    ensures [g] + (q[1..] + [g]) == q + [g]
  {
  }

  lemma TakenMoves(s: State, r: State, vpn: nat, g: nat)
    requires Wf(s) && OneFrameTaken(s, r, vpn, g) && Absent(s.ipt, s.current, vpn)
    ensures Filled(s.ipt, r.ipt, |s.ipt|) == [g]
    ensures Evicted(s.ipt, r.ipt, |s.ipt|) == if s.inUse[g] then [g] else []
  {
    assert !Holds(s.ipt[g], s.current, vpn);
    OneMoved(s.ipt, r.ipt, g, |s.ipt|);
  }

  lemma StepMoves(s: State, t: Step)
    requires Wf(s) && Enabled(s, t) && !Next(s, t).Halted? && !s.random
    ensures QueueMoves(s, Next(s, t).s)
  {
    FullIsReady(s);
    match t
    case Load(va, size, draw) =>
      if Next(s, t).Faulted? { FaultMoves(s, va / PAGE_SIZE, draw); } else { NoMove(s, Next(s, t).s); }
    case Store(va, size, value, draw) =>
      if Next(s, t).Faulted? { FaultMoves(s, va / PAGE_SIZE, draw); } else { NoMove(s, Next(s, t).s); }
    case Switch(next) =>
      SwitchCopies(s);
      NoMove(s, Next(s, t).s);
    case ForkThread => NoMove(s, Next(s, t).s);
    case ExecProgram(_, _, _, _, _) => NoMove(s, Next(s, t).s);
  }

  /** The state a run ends in. */
  ghost function After(s: State, steps: seq<Step>): (r: State)
    requires Run(s, steps)
    decreases |steps|
  {
    if steps == [] then s else After(Next(s, steps[0]).s, steps[1..])
  }

  ghost function AllFilled(s: State, steps: seq<Step>): (r: seq<nat>)
    requires Run(s, steps) && !s.random
    decreases |steps|
  {
    if steps == [] then [] else
      StepMoves(s, steps[0]);
      Filled(s.ipt, Next(s, steps[0]).s.ipt, |s.ipt|) + AllFilled(Next(s, steps[0]).s, steps[1..])
  }

  ghost function AllEvicted(s: State, steps: seq<Step>): (r: seq<nat>)
    requires Run(s, steps) && !s.random
    decreases |steps|
  {
    if steps == [] then [] else
      StepMoves(s, steps[0]);
      Evicted(s.ipt, Next(s, steps[0]).s.ipt, |s.ipt|) + AllEvicted(Next(s, steps[0]).s, steps[1..])
  }

  lemma Chained<T>(out: seq<T>, mid: seq<T>, q: seq<T>, come: seq<T>, outs: seq<T>, end: seq<T>, comes: seq<T>)
    requires out + mid == q + come && outs + end == mid + comes
    ensures (out + outs) + end == q + (come + comes)
  {
    assert (out + outs) + end == out + (outs + end);
    assert out + (mid + comes) == (out + mid) + comes;
    assert (q + come) + comes == q + (come + comes);
  }

  lemma {:induction false} FifoFrom(s: State, steps: seq<Step>)
    requires Run(s, steps) && !s.random
    ensures AllEvicted(s, steps) + After(s, steps).queue == s.queue + AllFilled(s, steps)
    decreases |steps|
  {
    if steps == [] {
      assert [] + s.queue == s.queue + [];
    } else {
      var r, rest := Next(s, steps[0]).s, steps[1..];
      StepMoves(s, steps[0]);
      FifoFrom(r, rest);
      Chained(Evicted(s.ipt, r.ipt, |s.ipt|), r.queue, s.queue, Filled(s.ipt, r.ipt, |s.ipt|),
              AllEvicted(r, rest), After(r, rest).queue, AllFilled(r, rest));
    }
  }

  /** First in, first out: over every run from start-up without random eviction, the frames evicted so far, in order,
      are the frames filled first, and the queue is the frames filled since. */
  lemma {:induction false} EvictionIsFifo(numFrames: nat, swapPages: nat, steps: seq<Step>)
    requires numFrames > 0 && Legal(Boot(numFrames, swapPages, false), steps)
    ensures Run(Boot(numFrames, swapPages, false), steps)
    ensures var s := Boot(numFrames, swapPages, false);
            AllEvicted(s, steps) + After(s, steps).queue == AllFilled(s, steps)
  {
    var s := Boot(numFrames, swapPages, false);
    BootWf(numFrames, swapPages, false);
    EveryRunKeepsStructure(s, steps);
    FifoFrom(s, steps);
    assert [] + AllFilled(s, steps) == AllFilled(s, steps);
  }

  // ---- the TLB slots go round ----

  /** The slot as it was, but for its use and dirty bits, or invalid. */
  predicate SlotKept(d: TranslationEntry, e: TranslationEntry) {
    e.virtualPage == d.virtualPage && e.physicalPage == d.physicalPage && (e.valid ==> d.valid)
  }

  predicate SlotsKept(tlb: seq<TranslationEntry>, tlb': seq<TranslationEntry>, except: int := -1) {
    |tlb'| == |tlb| && forall j :: 0 <= j < |tlb| && j != except ==> SlotKept(tlb[j], tlb'[j])
  }

  /** Slot i maps the page, and no other slot is replaced. */
  predicate RefilledAt(s: State, r: State, i: nat, vpn: nat) {
    && i < |s.tlb| && SlotsKept(s.tlb, r.tlb, i)
    && r.tlb[i].valid && r.tlb[i].virtualPage == vpn
  }

  lemma FaultRefills(s: State, vpn: nat, draw: nat)
    requires Wf(s) && CanEvict(s) && s.current in s.spaces && vpn < |s.spaces[s.current].pageTable|
    requires HandlePageFault(s, vpn, draw).Some?
    ensures var r := HandlePageFault(s, vpn, draw).value;
            RefilledAt(s, r, s.tlbIndex, vpn) && r.tlbIndex == (s.tlbIndex + 1) % TLB_SIZE
  {
    var s1, f := RefillOf(s, vpn, draw);
    UpdateRefills(s1, f, vpn);
    KeptThenRefilled(s, s1, UpdateTLB(s1, f), vpn);
  }

  /** A fault refills the TLB from the frame that holds the page, once it does. */
  lemma RefillOf(s: State, vpn: nat, draw: nat) returns (s1: State, f: nat)
    requires Wf(s) && CanEvict(s) && s.current in s.spaces && vpn < |s.spaces[s.current].pageTable|
    requires HandlePageFault(s, vpn, draw).Some?
    ensures Wf(s1) && f < |s1.ipt| && Holds(s1.ipt[f], s1.current, vpn)
    ensures HandlePageFault(s, vpn, draw).value == UpdateTLB(s1, f)
    ensures SlotsKept(s.tlb, s1.tlb) && s1.tlbIndex == s.tlbIndex
  {
    var ppn := FindIPTIndex(s.ipt, s.current, vpn);
    if ppn == -1 {
      LoadPageWf(s, vpn, draw);
      LoadKeepsSlots(s, vpn, draw);
      s1, f := LoadPage(s, vpn, draw).value.0, LoadPage(s, vpn, draw).value.1;
    } else {
      s1, f := s, ppn;
    }
  }

  lemma KeptThenRefilled(s: State, s1: State, r: State, vpn: nat)
    requires SlotsKept(s.tlb, s1.tlb) && s1.tlbIndex == s.tlbIndex && RefilledAt(s1, r, s1.tlbIndex, vpn)
    ensures RefilledAt(s, r, s.tlbIndex, vpn)
  {
    forall j | 0 <= j < |s.tlb| && j != s.tlbIndex ensures SlotKept(s.tlb[j], r.tlb[j]) {
      assert SlotKept(s.tlb[j], s1.tlb[j]) && SlotKept(s1.tlb[j], r.tlb[j]);
    }
  }

  lemma UpdateRefills(s: State, ppn: nat, vpn: nat)
    requires Wf(s) && ppn < |s.ipt| && Holds(s.ipt[ppn], s.current, vpn)
    ensures var r := UpdateTLB(s, ppn); RefilledAt(s, r, s.tlbIndex, vpn) && r.tlbIndex == (s.tlbIndex + 1) % TLB_SIZE
  {
  }

  lemma LoadKeepsSlots(s: State, vpn: nat, draw: nat)
    requires Wf(s) && CanEvict(s) && s.current in s.spaces && vpn < |s.spaces[s.current].pageTable|
    requires LoadPage(s, vpn, draw).Some?
    ensures var s1 := LoadPage(s, vpn, draw).value.0; SlotsKept(s.tlb, s1.tlb) && s1.tlbIndex == s.tlbIndex
  {
    if FirstClear(s.inUse) == -1 {
      var d := Detach(s, draw);
      assert SlotsKept(s.tlb, d.tlb) && d.tlbIndex == s.tlbIndex;
    }
  }

  /** The n-th refill of the run, counted from n on, fills slot n modulo the TLB's size; nothing else fills one. */
  ghost predicate SlotsGoRound(s: State, steps: seq<Step>, n: nat)
    decreases |steps|
  {
    steps != [] && Wf(s) && Enabled(s, steps[0]) && !Next(s, steps[0]).Halted? ==>
      var out := Next(s, steps[0]);
      && (if out.Faulted? then (steps[0].Load? || steps[0].Store?) && RefilledAt(s, out.s, n % TLB_SIZE, steps[0].va / PAGE_SIZE)
          else SlotsKept(s.tlb, out.s.tlb))
      && SlotsGoRound(out.s, steps[1..], if out.Faulted? then n + 1 else n)
  }

  lemma StepRefills(s: State, t: Step)
    requires Wf(s) && Enabled(s, t) && !Next(s, t).Halted?
    ensures var out := Next(s, t);
            if out.Faulted?
            then (t.Load? || t.Store?) && RefilledAt(s, out.s, s.tlbIndex, t.va / PAGE_SIZE)
                 && out.s.tlbIndex == (s.tlbIndex + 1) % TLB_SIZE
            else SlotsKept(s.tlb, out.s.tlb) && out.s.tlbIndex == s.tlbIndex
  {
    if t.Load? || t.Store? {
      AccessRefills(s, t);
    }
  }

  lemma AccessRefills(s: State, t: Step)
    requires Wf(s) && Enabled(s, t) && !Next(s, t).Halted? && (t.Load? || t.Store?)
    ensures var out := Next(s, t);
            if out.Faulted?
            then RefilledAt(s, out.s, s.tlbIndex, t.va / PAGE_SIZE) && out.s.tlbIndex == (s.tlbIndex + 1) % TLB_SIZE
            else SlotsKept(s.tlb, out.s.tlb) && out.s.tlbIndex == s.tlbIndex
  {
    if Next(s, t).Faulted? {
      FullIsReady(s);
      FaultRefills(s, t.va / PAGE_SIZE, t.draw);
    }
  }

  lemma {:induction false} RefillsGoRound(s: State, steps: seq<Step>, n: nat)
    requires Run(s, steps) && s.tlbIndex == n % TLB_SIZE
    ensures SlotsGoRound(s, steps, n)
    decreases |steps|
  {
    if steps != [] {
      StepRefills(s, steps[0]);
      RefillsGoRound(Next(s, steps[0]).s, steps[1..], if Next(s, steps[0]).Faulted? then n + 1 else n);
    }
  }

  /** Over every run from start-up the refills fill the slots in turn, each once in every TLB_SIZE refills. */
  lemma {:induction false} SlotsAreRoundRobin(numFrames: nat, swapPages: nat, random: bool, steps: seq<Step>)
    requires numFrames > 0 && Legal(Boot(numFrames, swapPages, random), steps)
    ensures SlotsGoRound(Boot(numFrames, swapPages, random), steps, 0)
  {
    BootWf(numFrames, swapPages, random);
    EveryRunKeepsStructure(Boot(numFrames, swapPages, random), steps);
    RefillsGoRound(Boot(numFrames, swapPages, random), steps, 0);
  }

  // ---- what becomes of an access ----

  predicate Misaligned(va: nat, size: nat) { (size == 4 && va % 4 != 0) || (size == 2 && va % 2 != 0) }

  predicate InTLB(s: State, vpn: nat) { exists i :: 0 <= i < |s.tlb| && s.tlb[i].valid && s.tlb[i].virtualPage == vpn }

  /** The page a frame holds has nowhere to go: it is dirty, has no slot in the swap file, and the file is full. */
  predicate CannotSave(s: State, f: nat)
    requires f < |s.ipt|
  {
    && s.ipt[f].dirty && s.ipt[f].processID in s.spaces
    && 0 <= s.ipt[f].virtualPage < |s.spaces[s.ipt[f].processID].pageTable|
    && s.spaces[s.ipt[f].processID].pageTable[s.ipt[f].virtualPage].swapPageIndex < 0
    && AllUsed(s.swapUsed)
  }

  /** A fault on the page needs a frame, none is free, and the one to evict cannot be saved. */
  ghost predicate NoRoom(s: State, vpn: nat, draw: nat) {
    && Absent(s.ipt, s.current, vpn) && AllUsed(s.inUse)
    && exists g: nat :: g < |s.ipt| && IsVictim(s, draw, g) && CannotSave(s, g)
  }

  lemma FaultHaltsIff(s: State, vpn: nat, draw: nat)
    requires Wf(s) && CanEvict(s) && s.current in s.spaces && vpn < |s.spaces[s.current].pageTable|
    ensures HandlePageFault(s, vpn, draw).None? <==> NoRoom(s, vpn, draw)
  {
    if Absent(s.ipt, s.current, vpn) {
      AbsentNotFound(s, vpn);
      if AllUsed(s.inUse) {
        assert FirstClear(s.inUse) == -1;
        var g := Victim(s, draw);
        assert s.inUse[g] && IsVictim(s, draw, g);
        SaveFailsIff(Detach(s, draw), g);
        assert CannotSave(Detach(s, draw), g) <==> CannotSave(s, g);
      }
    } else {
      ResidentFault(s, vpn, draw);
    }
  }

  lemma SaveFailsIff(s: State, f: nat)
    requires Shaped(s) && f < |s.ipt| && s.ipt[f].valid
    ensures SwapOut(s, f).None? <==> CannotSave(s, f)
  {
  }

  /** A dirty page is saved in the slot it has, or else in the first free one, which it then keeps; a clean page is
      saved nowhere. */
  lemma SavedWhere(s: State, f: nat) returns (slot: int)
    requires Shaped(s) && f < |s.ipt| && s.ipt[f].valid && SwapOut(s, f).Some?
    ensures var r, p, v := SwapOut(s, f).value, s.ipt[f].processID, s.ipt[f].virtualPage;
            var had := s.spaces[p].pageTable[v].swapPageIndex;
            if !s.ipt[f].dirty then r == s
            else && 0 <= slot < |s.swap| && (if had < 0 then FirstFree(s.swapUsed, slot) else slot == had)
                 && p in r.spaces && v < |r.spaces[p].pageTable| && r.spaces[p].pageTable[v].swapPageIndex == slot
                 && r.swap == s.swap[slot := s.frames[f]] && r.swapUsed == s.swapUsed[slot := s.swapUsed[slot] || had < 0]
  {
    var had := s.spaces[s.ipt[f].processID].pageTable[s.ipt[f].virtualPage].swapPageIndex;
    slot := if had < 0 then FirstClear(s.swapUsed) else had;
  }

  /** Exactly what becomes of an access: it is done when it is aligned and its page is in the TLB; it halts the machine
      when it is misaligned or there is no room for its page; otherwise it faults. */
  lemma AccessOutcome(s: State, t: Step)
    requires Wf(s) && Enabled(s, t) && (t.Load? || t.Store?)
    ensures var out, vpn := Next(s, t), t.va / PAGE_SIZE;
            && (out.Done? <==> !Misaligned(t.va, t.size) && InTLB(s, vpn))
            && (out.Halted? <==> Misaligned(t.va, t.size) || (!InTLB(s, vpn) && NoRoom(s, vpn, t.draw)))
  {
    TranslateWf(s, t.va, t.size, t.Store?);
    FullIsReady(s);
    FaultHaltsIff(s, t.va / PAGE_SIZE, t.draw);
    assert FindTLB(s.tlb, t.va / PAGE_SIZE) != -1 <==> InTLB(s, t.va / PAGE_SIZE);
  }

  /** No other step halts the machine. */
  lemma KernelStepsAreDone(s: State, t: Step)
    requires Wf(s) && Enabled(s, t) && !t.Load? && !t.Store?
    ensures Next(s, t).Done?
  {
  }

  // ---- past the end of the executable ----

  /** A page that was never written comes from the executable byte by byte; past the end of the file the frame shows
      what it held before, another page's bytes for one. */
  lemma PageShowsOldBytes(s: State, vpn: nat, draw: nat) returns (g: nat)
    requires Wf(s) && CanEvict(s) && s.current in s.spaces && vpn < |s.spaces[s.current].pageTable|
    requires Absent(s.ipt, s.current, vpn) && HandlePageFault(s, vpn, draw).Some?
    requires s.spaces[s.current].pageTable[vpn].location.InExecutable?
    ensures OneFrameTaken(s, HandlePageFault(s, vpn, draw).value, vpn, g)
    ensures var r, file := HandlePageFault(s, vpn, draw).value, s.spaces[s.current].executable;
            var from := s.spaces[s.current].pageTable[vpn].byteOffset;
            forall o :: 0 <= o < PAGE_SIZE ==>
              r.frames[g][o] == if from + o < |file| then file[from + o] else s.frames[g][o]
  {
    g := FaultTakesOneFrame(s, vpn, draw);
    AbsentNotFound(s, vpn);
    if AllUsed(s.inUse) {
      EvictedPageElsewhere(s, vpn, draw);
    }
  }

  /** Saving the victim changes neither where the faulted page is nor its executable. */
  lemma EvictedPageElsewhere(s: State, vpn: nat, draw: nat)
    requires Wf(s) && Full(s) && s.current in s.spaces && vpn < |s.spaces[s.current].pageTable|
    requires Absent(s.ipt, s.current, vpn) && SwapOut(Detach(s, draw), Victim(s, draw)).Some?
    ensures var s1 := SwapOut(Detach(s, draw), Victim(s, draw)).value;
            && s1.current == s.current && s1.current in s1.spaces && s1.frames == s.frames
            && s1.spaces[s1.current].executable == s.spaces[s.current].executable
            && |s1.spaces[s1.current].pageTable| == |s.spaces[s.current].pageTable|
            && s1.spaces[s1.current].pageTable[vpn] == s.spaces[s.current].pageTable[vpn]
  {
    var g := Victim(s, draw);
    assert s.inUse[g] && !Holds(s.ipt[g], s.current, vpn);
  }
}

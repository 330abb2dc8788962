/** What the dirty bits mean over whole runs: a frame is dirty only if the page it holds was stored to. */
module PagingDirty {
  import opened BitMaps
  import opened Bytes
  import opened Options
  import opened PagingModel
  import opened PagingProofs
  import opened PagingRuns
  import opened PagingOrders

  /** A frame dirty afterwards was dirty before, and holds the page it held. */
  ghost predicate NoNewDirt(s: State, r: State) {
    && |r.ipt| == |s.ipt|
    && forall f :: 0 <= f < |s.ipt| && Dirty(r.ipt, r.tlb, f) ==> Dirty(s.ipt, s.tlb, f) && SameHolder(s.ipt[f], r.ipt[f])
  }

  /** The slots after are slots before, or invalid. */
  predicate FewerSlots(tlb: seq<TranslationEntry>, tlb': seq<TranslationEntry>) {
    |tlb'| == |tlb| && forall i :: 0 <= i < |tlb| && tlb'[i].valid ==> tlb'[i] == tlb[i]
  }

  lemma FewerSlotsNoDirt(s: State, r: State)
    requires FewerSlots(s.tlb, r.tlb) && r.ipt == s.ipt
    ensures NoNewDirt(s, r)
  {
    forall f | 0 <= f < |s.ipt| && Dirty(r.ipt, r.tlb, f) ensures Dirty(s.ipt, s.tlb, f) {
      if !s.ipt[f].dirty {
        var i :| 0 <= i < |r.tlb| && r.tlb[i].valid && r.tlb[i].physicalPage == f && r.tlb[i].dirty;
        assert s.tlb[i] == r.tlb[i];
      }
    }
  }

  lemma NoDirtThrough(s: State, s1: State, r: State)
    requires NoNewDirt(s, s1) && NoNewDirt(s1, r)
    ensures NoNewDirt(s, r)
  {
    forall f | 0 <= f < |s.ipt| && Dirty(r.ipt, r.tlb, f) ensures SameHolder(s.ipt[f], r.ipt[f]) && Dirty(s.ipt, s.tlb, f) {
      assert SameHolder(s.ipt[f], s1.ipt[f]) && SameHolder(s1.ipt[f], r.ipt[f]);
    }
  }

  // ---- a fault ----

  /** The frame that is filled is clean. */
  lemma InstallNoDirt(s: State, g: nat, vpn: nat)
    requires Shaped(s) && g < |s.ipt| && s.current in s.spaces && vpn < |s.spaces[s.current].pageTable|
    requires NoTlbFor(s.tlb, g)
    ensures NoNewDirt(s, Installed(s, g, vpn))
  {
  }

  lemma LoadNoDirt(s: State, vpn: nat, draw: nat)
    requires Wf(s) && CanEvict(s) && s.current in s.spaces && vpn < |s.spaces[s.current].pageTable|
    requires LoadPage(s, vpn, draw).Some?
    ensures NoNewDirt(s, LoadPage(s, vpn, draw).value.0)
  {
    var free := FirstClear(s.inUse);
    if free != -1 {
      assert NoTlbFor(s.tlb, free) by {
        forall i | 0 <= i < |s.tlb| && s.tlb[i].valid ensures s.tlb[i].physicalPage != free {
          assert Mirrors(s.tlb[i], s.ipt, s.current);
        }
      }
      InstallNoDirt(s, free, vpn);
    } else {
      EvictedNoDirt(s, vpn, draw);
    }
  }

  lemma EvictedNoDirt(s: State, vpn: nat, draw: nat)
    requires Wf(s) && Full(s) && s.current in s.spaces && vpn < |s.spaces[s.current].pageTable|
    requires LoadPage(s, vpn, draw).Some?
    ensures NoNewDirt(s, LoadPage(s, vpn, draw).value.0)
  {
    var d, g := Detach(s, draw), Victim(s, draw);
    DetachTlb(s, draw);
    DetachShaped(s, draw);
    SwapOutShaped(d, g);
    var s1 := SwapOut(d, g).value;
    FewerSlotsNoDirt(s, s1);
    InstallNoDirt(s1, g, vpn);
    assert s1.inUse[g];
    assert Installed(s1, g, vpn).ipt == LoadPage(s, vpn, draw).value.0.ipt;
    NoDirtThrough(s, s1, LoadPage(s, vpn, draw).value.0);
  }

  /** A refill copies bits the IPT or the outgoing slot had. */
  lemma RefillNoDirt(s: State, ppn: nat)
    requires Wf(s) && ppn < |s.ipt| && s.ipt[ppn].valid
    ensures NoNewDirt(s, UpdateTLB(s, ppn))
  {
    var r, out := UpdateTLB(s, ppn), s.tlb[s.tlbIndex];
    RefillKeepsHolders(s, ppn);
    assert forall f :: 0 <= f < |s.ipt| && r.ipt[f].dirty ==> s.ipt[f].dirty || (out.valid && out.physicalPage == f && out.dirty);
    forall f | 0 <= f < |s.ipt| && Dirty(r.ipt, r.tlb, f) ensures Dirty(s.ipt, s.tlb, f) && SameHolder(s.ipt[f], r.ipt[f]) {
      if !r.ipt[f].dirty {
        var i :| 0 <= i < |r.tlb| && r.tlb[i].valid && r.tlb[i].physicalPage == f && r.tlb[i].dirty;
        assert i != s.tlbIndex ==> s.tlb[i] == r.tlb[i];
      }
    }
  }

  lemma FaultNoDirt(s: State, vpn: nat, draw: nat)
    requires Wf(s) && CanEvict(s) && s.current in s.spaces && vpn < |s.spaces[s.current].pageTable|
    requires HandlePageFault(s, vpn, draw).Some?
    ensures NoNewDirt(s, HandlePageFault(s, vpn, draw).value)
  {
    var ppn := FindIPTIndex(s.ipt, s.current, vpn);
    if ppn != -1 {
      RefillNoDirt(s, ppn);
    } else {
      LoadPageWf(s, vpn, draw);
      LoadNoDirt(s, vpn, draw);
      var s1, f := LoadPage(s, vpn, draw).value.0, LoadPage(s, vpn, draw).value.1;
      RefillNoDirt(s1, f);
      NoDirtThrough(s, s1, UpdateTLB(s1, f));
    }
  }

  // ---- steps ----

  /** The step stores to the page. */
  ghost predicate StoresTo(s: State, t: Step, p: SpaceId, v: int)
    requires Wf(s) && Enabled(s, t)
  {
    t.Store? && Next(s, t).Done? && s.current == p && t.va / PAGE_SIZE == v
  }

  /** A frame dirty after the step was dirty before with the same page, or the step stored to its page. */
  ghost predicate DirtExplained(s: State, t: Step, r: State)
    requires Wf(s) && Enabled(s, t)
  {
    && |r.ipt| == |s.ipt|
    && forall f :: 0 <= f < |s.ipt| && Dirty(r.ipt, r.tlb, f) ==>
         || (Dirty(s.ipt, s.tlb, f) && SameHolder(s.ipt[f], r.ipt[f]))
         || (r.ipt[f].valid && StoresTo(s, t, r.ipt[f].processID, r.ipt[f].virtualPage))
  }

  /** An access that hits marks its slot used, and dirty when it writes, and changes no other slot. */
  lemma HitMarks(s: State, va: nat, size: nat, writing: bool) returns (i: nat)
    requires Wf(s) && Translate(s, va, size, writing).0.NoException?
    ensures i < |s.tlb| && s.tlb[i].valid && s.tlb[i].virtualPage == va / PAGE_SIZE
    ensures var tlb' := Translate(s, va, size, writing).2.tlb;
            && |tlb'| == |s.tlb| && tlb'[i].use && tlb'[i].dirty == (s.tlb[i].dirty || writing)
            && SlotKept(s.tlb[i], tlb'[i]) && tlb'[i].valid
            && forall j :: 0 <= j < |s.tlb| && j != i ==> tlb'[j] == s.tlb[j]
    ensures Translate(s, va, size, writing).2.ipt == s.ipt
  {
    i := FindTLB(s.tlb, va / PAGE_SIZE);
  }

  lemma LoadHitNoDirt(s: State, va: nat, size: nat)
    requires Wf(s) && AccessSize(size) && ReadMem(s, va, size).0.NoException?
    ensures NoNewDirt(s, ReadMem(s, va, size).2)
  {
    var i := HitMarks(s, va, size, false);
    var r := ReadMem(s, va, size).2;
    forall f | 0 <= f < |s.ipt| && Dirty(r.ipt, r.tlb, f) ensures Dirty(s.ipt, s.tlb, f) {
      if !s.ipt[f].dirty {
        var j :| 0 <= j < |r.tlb| && r.tlb[j].valid && r.tlb[j].physicalPage == f && r.tlb[j].dirty;
        assert s.tlb[j].valid && s.tlb[j].physicalPage == f && s.tlb[j].dirty;
      }
    }
  }

  lemma StoreHitDirt(s: State, t: Step)
    requires Wf(s) && Enabled(s, t) && t.Store? && Next(s, t).Done?
    ensures DirtExplained(s, t, Next(s, t).s)
  {
    var i := HitMarks(s, t.va, t.size, true);
    var r := Next(s, t).s;
    assert Mirrors(s.tlb[i], s.ipt, s.current);
    forall f | 0 <= f < |s.ipt| && Dirty(r.ipt, r.tlb, f)
      ensures (Dirty(s.ipt, s.tlb, f) && SameHolder(s.ipt[f], r.ipt[f]))
              || (r.ipt[f].valid && StoresTo(s, t, r.ipt[f].processID, r.ipt[f].virtualPage))
    {
      if !s.ipt[f].dirty {
        var j :| 0 <= j < |r.tlb| && r.tlb[j].valid && r.tlb[j].physicalPage == f && r.tlb[j].dirty;
        assert j != i ==> s.tlb[j] == r.tlb[j];
      }
    }
  }

  lemma SwitchNoDirt(s: State, next: SpaceId)
    requires Wf(s)
    ensures NoNewDirt(s, SwitchTo(s, next))
  {
    SwitchCopies(s);
  }

  lemma StepDirt(s: State, t: Step)
    requires Wf(s) && Enabled(s, t) && !Next(s, t).Halted?
    ensures DirtExplained(s, t, Next(s, t).s)
  {
    FullIsReady(s);
    var r := Next(s, t).s;
    match t
    case Load(va, size, draw) =>
      if Next(s, t).Faulted? { FaultNoDirt(s, va / PAGE_SIZE, draw); } else { LoadHitNoDirt(s, va, size); }
    case Store(va, size, value, draw) =>
      if Next(s, t).Faulted? { FaultNoDirt(s, va / PAGE_SIZE, draw); } else { StoreHitDirt(s, t); }
    case Switch(next) => SwitchNoDirt(s, next);
    case ForkThread => FewerSlotsNoDirt(s, r);
    case ExecProgram(_, _, _, _, _) => FewerSlotsNoDirt(s, r);
  }

  // ---- runs ----

  /** Some step of the run stores to the page. */
  ghost predicate StoredIn(s: State, steps: seq<Step>, p: SpaceId, v: int)
    requires Run(s, steps)
    decreases |steps|
  {
    steps != [] && (StoresTo(s, steps[0], p, v) || StoredIn(Next(s, steps[0]).s, steps[1..], p, v))
  }

  lemma {:induction false} DirtFrom(s: State, steps: seq<Step>, f: nat)
    requires Run(s, steps) && f < |s.ipt|
    ensures var e := After(s, steps);
            && |e.ipt| == |s.ipt|
            && (Dirty(e.ipt, e.tlb, f) ==>
                  || (Dirty(s.ipt, s.tlb, f) && SameHolder(s.ipt[f], e.ipt[f]))
                  || StoredIn(s, steps, e.ipt[f].processID, e.ipt[f].virtualPage))
    decreases |steps|
  {
    if steps != [] {
      var r := Next(s, steps[0]).s;
      StepDirt(s, steps[0]);
      DirtFrom(r, steps[1..], f);
    }
  }

  /** Over every run from start-up a frame is dirty, in the IPT or in the TLB, only if the page it holds was stored to.
      So a page that was only read is never written to the swap file. */
  lemma {:induction false} DirtyWasStored(numFrames: nat, swapPages: nat, random: bool, steps: seq<Step>, f: nat)
    requires numFrames > 0 && Legal(Boot(numFrames, swapPages, random), steps)
    ensures Run(Boot(numFrames, swapPages, random), steps)
    ensures var s := Boot(numFrames, swapPages, random);
            var e := After(s, steps);
            f < |e.ipt| && Dirty(e.ipt, e.tlb, f) ==> StoredIn(s, steps, e.ipt[f].processID, e.ipt[f].virtualPage)
  {
    var s := Boot(numFrames, swapPages, random);
    BootWf(numFrames, swapPages, random);
    EveryRunKeepsStructure(s, steps);
    if f < |s.ipt| {
      assert !Dirty(s.ipt, s.tlb, f);
      DirtFrom(s, steps, f);
    } else {
      DirtFrom(s, steps, 0);
    }
  }
}

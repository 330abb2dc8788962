/** The repair: with Scheduler::Run's copy-back loop before every fault, Fork and Exec, no run loses a write. */
module PagingRepair {
  import opened Options
  import opened PagingModel
  import opened PagingProofs
  import opened PagingRuns

  /** Every valid TLB slot's dirty bit copied to the IPT; the slots stay. */
  function CopiedBack(s: State): (r: State)
    requires forall i :: 0 <= i < |s.tlb| && s.tlb[i].valid ==> 0 <= s.tlb[i].physicalPage < |s.ipt|
  {
    s.(ipt := CopyBack(s.ipt, s.tlb))
  }

  lemma OneSlotPerFrame(s: State, i: nat, j: nat)
    requires Wf(s) && i < |s.tlb| && j < |s.tlb| && s.tlb[i].valid && s.tlb[j].valid
    requires s.tlb[i].physicalPage == s.tlb[j].physicalPage
    ensures i == j
  {
    assert Mirrors(s.tlb[i], s.ipt, s.current) && Mirrors(s.tlb[j], s.ipt, s.current);
  }

  lemma CopiedBackWf(s: State)
    requires Wf(s)
    ensures Wf(CopiedBack(s))
  {
    SwitchCopies(s);
    var r := CopiedBack(s);
    forall f, g | 0 <= f < |r.ipt| && 0 <= g < |r.ipt| && SamePage(r.ipt[f], r.ipt[g]) ensures f == g {
      assert SamePage(s.ipt[f], s.ipt[g]);
    }
    forall i | 0 <= i < |r.tlb| && r.tlb[i].valid ensures Mirrors(r.tlb[i], r.ipt, r.current) {
      assert Mirrors(s.tlb[i], s.ipt, s.current);
      var f := s.tlb[i].physicalPage;
      if r.ipt[f].dirty && !s.ipt[f].dirty {
        var j :| 0 <= j < |s.tlb| && s.tlb[j].valid && s.tlb[j].physicalPage == f && s.tlb[j].dirty;
        OneSlotPerFrame(s, i, j);
      }
    }
  }

  /** Copying back changes nothing that memory means, and leaves nothing to lose. */
  lemma CopiedBackKeepsMemory(s: State, flat: Flat)
    requires Wf(s) && Coherent(s, flat)
    ensures Coherent(CopiedBack(s), flat) && FlushLosesNothing(CopiedBack(s).tlb, CopiedBack(s).ipt)
  {
    SwitchCopies(s);
    var r := CopiedBack(s);
    forall p, v | p in r.spaces && 0 <= v < |r.spaces[p].pageTable| ensures PageOK(r, p, v, CellsOf(flat[p], v)) {
      assert PageOK(s, p, v, CellsOf(flat[p], v));
      assert forall f :: 0 <= f < |s.ipt| ==> (Holds(s.ipt[f], p, v) <==> Holds(r.ipt[f], p, v));
    }
  }

  /** The step drops TLB entries without looking at their dirty bits. */
  ghost predicate Drops(s: State, t: Step)
    requires Wf(s) && Enabled(s, t)
  {
    match t
    case Load(va, size, _) => ReadMem(s, va, size).0.PageFault?
    case Store(va, size, value, _) => WriteMem(s, va, size, value).0.PageFault?
    case Switch(_) => false
    case ForkThread => true
    case ExecProgram(_, _, _, _, _) => true
  }

  /** The state a repaired step starts from. */
  ghost function Prepared(s: State, t: Step): (r: State)
    requires Wf(s) && Enabled(s, t)
  {
    if Drops(s, t) then CopiedBack(s) else s
  }

  lemma PreparedIsReady(s: State, t: Step, m: FlatSystem)
    requires Wf(s) && Enabled(s, t) && StandsFor(s, m)
    ensures var r := Prepared(s, t); Wf(r) && Enabled(r, t) && StandsFor(r, m) && LosesNothing(r, t)
  {
    if Drops(s, t) {
      CopiedBackWf(s);
      CopiedBackKeepsMemory(s, m.memory);
      FullIsReady(CopiedBack(s));
    }
  }

  ghost predicate RepairedLegal(s: State, steps: seq<Step>)
    decreases |steps|
  {
    steps != [] && Wf(s) ==>
      && Enabled(s, steps[0])
      && var r := Prepared(s, steps[0]);
         Wf(r) && Enabled(r, steps[0]) ==> !Next(r, steps[0]).Halted? && RepairedLegal(Next(r, steps[0]).s, steps[1..])
  }

  ghost predicate EveryRepairedReadIsRight(s: State, m: FlatSystem, steps: seq<Step>)
    decreases |steps|
  {
    steps != [] ==>
      && Wf(s) && Enabled(s, steps[0])
      && var r := Prepared(s, steps[0]);
         && Wf(r) && Enabled(r, steps[0]) && !Next(r, steps[0]).Halted?
         && ReadIsRight(Next(r, steps[0]), m, steps[0])
         && EveryRepairedReadIsRight(Next(r, steps[0]).s, FlatNext(m, steps[0], Next(r, steps[0]).Done?), steps[1..])
  }

  lemma {:induction false} RepairedRefinesFrom(s: State, m: FlatSystem, steps: seq<Step>)
    requires Wf(s) && StandsFor(s, m) && RepairedLegal(s, steps)
    ensures EveryRepairedReadIsRight(s, m, steps)
    decreases |steps|
  {
    if steps != [] {
      var t, r := steps[0], Prepared(s, steps[0]);
      PreparedIsReady(s, t, m);
      StepKeepsStructure(r, t);
      StepRefines(r, t, m);
      RepairedRefinesFrom(Next(r, t).s, FlatNext(m, t, Next(r, t).Done?), steps[1..]);
    }
  }

  /** With the repair, paging refines flat memory on every legal run, whatever is evicted. */
  lemma {:induction false} RepairedPagingRefinesFlatMemory(numFrames: nat, swapPages: nat, random: bool, steps: seq<Step>)
    requires numFrames > 0 && RepairedLegal(Boot(numFrames, swapPages, random), steps)
    ensures EveryRepairedReadIsRight(Boot(numFrames, swapPages, random), NO_MEMORY, steps)
  {
    BootWf(numFrames, swapPages, random);
    RepairedRefinesFrom(Boot(numFrames, swapPages, random), NO_MEMORY, steps);
  }
}

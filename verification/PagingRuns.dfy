/** Whole runs of the paging system: the structure holds on every run, and every run in which no dropped
    TLB entry hides a dirty bit reads back what a flat memory per address space would. */
module PagingRuns {
  import opened BitMaps
  import opened Bytes
  import opened Options
  import opened PagingModel
  import opened PagingProofs

  /** One atomic step: an access attempt (which may end in a handled page fault), a dispatch, a Fork, an Exec.
      `draw` is the value Random() would return if the fault evicts. */
  datatype Step =
    | Load(va: nat, size: nat, draw: nat)
    | Store(va: nat, size: nat, value: int, draw: nat)
    | Switch(next: SpaceId)
    | ForkThread
    | ExecProgram(id: SpaceId, executable: seq<Byte>, codeStart: nat, loaded: nat, total: nat)

  /** An access is done, and a load has its value, or it faulted and the fault is handled; other steps are done. */
  datatype Outcome = Done(s: State, value: int) | Faulted(s: State) | Halted

  /** What the paging system stands for: one memory per address space, and the space that runs. */
  datatype FlatSystem = FlatSystem(memory: Flat, current: SpaceId)

  ghost predicate Mapped(s: State, va: nat) {
    s.current in s.spaces && va / PAGE_SIZE < |s.spaces[s.current].pageTable|
  }

  /** What the code leaves to its callers: accesses fall inside the current page table, and spaces are distinct objects. */
  ghost predicate Enabled(s: State, t: Step) {
    match t
    case Load(va, size, _) => AccessSize(size) && Mapped(s, va)
    case Store(va, size, _, _) => AccessSize(size) && Mapped(s, va)
    case Switch(next) => next == NULL_SPACE || next in s.spaces
    case ForkThread => s.current in s.spaces
    case ExecProgram(id, _, _, loaded, total) => id !in s.spaces && id != NULL_SPACE && loaded <= total
  }

  ghost function AfterFault(s: State, vpn: nat, draw: nat): Outcome
    requires Wf(s) && s.current in s.spaces && vpn < |s.spaces[s.current].pageTable|
  {
    FullIsReady(s);
    match HandlePageFault(s, vpn, draw)
    case None => Halted
    case Some(r) => Faulted(r)
  }

  ghost function Next(s: State, t: Step): Outcome
    requires Wf(s) && Enabled(s, t)
  {
    match t
    case Load(va, size, draw) =>
      var (e, value, r) := ReadMem(s, va, size);
      if e.NoException? then Done(r, value)
      else if e.PageFault? then AfterFault(s, va / PAGE_SIZE, draw)
      else Halted
    case Store(va, size, value, draw) =>
      var (e, r) := WriteMem(s, va, size, value);
      if e.NoException? then Done(r, 0)
      else if e.PageFault? then AfterFault(s, va / PAGE_SIZE, draw)
      else Halted
    case Switch(next) => Done(SwitchTo(s, next), 0)
    case ForkThread => Done(Fork(s), 0)
    case ExecProgram(id, executable, codeStart, loaded, total) =>
      Done(Exec(s, id, NewSpace(executable, codeStart, loaded, total)), 0)
  }

  /** The step drops no TLB entry whose dirty bit the IPT lacks. */
  ghost predicate LosesNothing(s: State, t: Step)
    requires Wf(s) && Enabled(s, t)
  {
    FullIsReady(s);
    match t
    case Load(va, size, draw) => ReadMem(s, va, size).0.PageFault? ==> FaultLosesNothing(s, va / PAGE_SIZE, draw)
    case Store(va, size, value, draw) =>
      WriteMem(s, va, size, value).0.PageFault? ==> FaultLosesNothing(s, va / PAGE_SIZE, draw)
    case Switch(_) => true
    case ForkThread => FlushLosesNothing(s.tlb, s.ipt)
    case ExecProgram(_, _, _, _, _) => FlushLosesNothing(s.tlb, s.ipt)
  }

  /** A new memory: `loaded` pages of the file's bytes from `codeStart` on, unknown where the file ends before them,
      and zeros in the other pages and the stack. */
  function StartCells(executable: seq<Byte>, codeStart: nat, loaded: nat, total: nat): (m: seq<Cell>)
    ensures |m| == (total + STACK_PAGES) * PAGE_SIZE
    ensures forall a :: 0 <= a < |m| ==>
      m[a] == if a >= loaded * PAGE_SIZE then Known(0)
              else if codeStart + a < |executable| then Known(executable[codeStart + a])
              else Unknown
  {
    seq((total + STACK_PAGES) * PAGE_SIZE, a requires 0 <= a =>
      if a >= loaded * PAGE_SIZE then Known(0)
      else if codeStart + a < |executable| then Known(executable[codeStart + a])
      else Unknown)
  }

  /** The step on flat memory; a faulted access leaves it alone. */
  function FlatNext(m: FlatSystem, t: Step, done: bool): (m': FlatSystem) {
    match t
    case Load(_, _, _) => m
    case Store(va, size, value, _) =>
      if done && m.current in m.memory && va + size <= |m.memory[m.current]|
      then m.(memory := m.memory[m.current := WriteCells(m.memory[m.current], va, EncodeLE(value, size))])
      else m
    case Switch(next) => m.(current := next)
    case ForkThread =>
      if m.current in m.memory then m.(memory := m.memory[m.current := m.memory[m.current] + StackCells()]) else m
    case ExecProgram(id, executable, codeStart, loaded, total) =>
      m.(memory := m.memory[id := StartCells(executable, codeStart, loaded, total)])
  }

  /** The paging system stands for the flat one. */
  ghost predicate StandsFor(s: State, m: FlatSystem) { Coherent(s, m.memory) && s.current == m.current }

  lemma NewPageStarts(executable: seq<Byte>, codeStart: nat, loaded: nat, total: nat, a: nat)
    requires loaded <= total && a / PAGE_SIZE < total + STACK_PAGES
    ensures InitialCell(NewSpace(executable, codeStart, loaded, total), a) ==
      if a >= loaded * PAGE_SIZE then Known(0)
      else if codeStart + a < |executable| then Known(executable[codeStart + a])
      else Unknown
  {
    assert a == PAGE_SIZE * (a / PAGE_SIZE) + a % PAGE_SIZE;
    assert a / PAGE_SIZE < loaded <==> a < loaded * PAGE_SIZE;
  }

  /** The page table that Exec builds stands for the program's bytes, each at its own place in the file. */
  lemma NewSpaceStarts(executable: seq<Byte>, codeStart: nat, loaded: nat, total: nat)
    requires loaded <= total
    ensures InitialCells(NewSpace(executable, codeStart, loaded, total)) == StartCells(executable, codeStart, loaded, total)
  {
    var space := NewSpace(executable, codeStart, loaded, total);
    var initial, start := InitialCells(space), StartCells(executable, codeStart, loaded, total);
    forall a | 0 <= a < |initial| ensures initial[a] == start[a] {
      NewPageStarts(executable, codeStart, loaded, total, a);
    }
  }

  lemma AccessInside(s: State, va: nat, size: nat, flat: Flat)
    requires Wf(s) && AccessSize(size) && Mapped(s, va) && FlatShape(s.spaces, flat)
    requires size == 4 ==> va % 4 == 0
    requires size == 2 ==> va % 2 == 0
    ensures va + size <= |flat[s.current]|
  {
    AlignedFits(va, size);
    assert va == PAGE_SIZE * (va / PAGE_SIZE) + va % PAGE_SIZE;
    assert |flat[s.current]| >= PAGE_SIZE * (va / PAGE_SIZE) + PAGE_SIZE;
  }

  /** Every step keeps the structural invariant, lost dirty bits or not. */
  lemma StepKeepsStructure(s: State, t: Step)
    requires Wf(s) && Enabled(s, t) && !Next(s, t).Halted?
    ensures Wf(Next(s, t).s)
  {
    match t {
      case Load(va, size, draw) =>
        TranslateWf(s, va, size, false);
        if ReadMem(s, va, size).0.PageFault? {
          FullIsReady(s);
          FaultWf(s, va / PAGE_SIZE, draw);
        }
      case Store(va, size, value, draw) =>
        TranslateWf(s, va, size, true);
        WriteWf(s, va, size, value);
        if WriteMem(s, va, size, value).0.PageFault? {
          FullIsReady(s);
          FaultWf(s, va / PAGE_SIZE, draw);
        }
      case Switch(next) => SwitchWf(s, next);
      case ForkThread => ForkWf(s);
      case ExecProgram(id, executable, codeStart, loaded, total) =>
        ExecWf(s, id, NewSpace(executable, codeStart, loaded, total));
    }
  }

  lemma LoadRefines(s: State, t: Step, m: FlatSystem)
    requires t.Load? && Wf(s) && StandsFor(s, m) && Enabled(s, t) && LosesNothing(s, t) && !Next(s, t).Halted?
    ensures StandsFor(Next(s, t).s, m) && ReadIsRight(Next(s, t), m, t)
  {
    TranslateCoherent(s, t.va, t.size, false, m.memory);
    if ReadMem(s, t.va, t.size).0.PageFault? {
      TranslateWf(s, t.va, t.size, false);
      FullIsReady(s);
      FaultWf(s, t.va / PAGE_SIZE, t.draw);
      FaultCoherent(s, t.va / PAGE_SIZE, t.draw, m.memory);
    } else if AllKnown(m.memory[s.current], t.va, t.size) {
      ReadAgrees(s, t.va, t.size, m.memory);
    }
  }

  lemma StoreRefines(s: State, t: Step, m: FlatSystem)
    requires t.Store? && Wf(s) && StandsFor(s, m) && Enabled(s, t) && LosesNothing(s, t) && !Next(s, t).Halted?
    ensures StandsFor(Next(s, t).s, FlatNext(m, t, Next(s, t).Done?))
  {
    TranslateWf(s, t.va, t.size, true);
    if WriteMem(s, t.va, t.size, t.value).0.PageFault? {
      FullIsReady(s);
      FaultWf(s, t.va / PAGE_SIZE, t.draw);
      FaultCoherent(s, t.va / PAGE_SIZE, t.draw, m.memory);
    } else {
      AccessInside(s, t.va, t.size, m.memory);
      WriteAgrees(s, t.va, t.size, t.value, m.memory);
    }
  }

  lemma KernelStepRefines(s: State, t: Step, m: FlatSystem)
    requires !t.Load? && !t.Store? && Wf(s) && StandsFor(s, m) && Enabled(s, t) && LosesNothing(s, t)
    ensures StandsFor(Next(s, t).s, FlatNext(m, t, true))
  {
    if t.Switch? {
      SwitchCoherent(s, t.next, m.memory);
    } else if t.ForkThread? {
      ForkCoherent(s, m.memory);
    } else {
      ExecCoherent(s, t.id, NewSpace(t.executable, t.codeStart, t.loaded, t.total), m.memory);
      NewSpaceStarts(t.executable, t.codeStart, t.loaded, t.total);
    }
  }

  /** Every step that loses nothing acts on the flat system as specified, and a load that is done is right. */
  lemma StepRefines(s: State, t: Step, m: FlatSystem)
    requires Wf(s) && StandsFor(s, m) && Enabled(s, t) && LosesNothing(s, t) && !Next(s, t).Halted?
    ensures StandsFor(Next(s, t).s, FlatNext(m, t, Next(s, t).Done?))
    ensures ReadIsRight(Next(s, t), m, t)
  {
    if t.Load? {
      LoadRefines(s, t, m);
    } else if t.Store? {
      StoreRefines(s, t, m);
    } else {
      KernelStepRefines(s, t, m);
    }
  }

  /** A load that is done gives the flat bytes of the current space, whenever all of them are known. */
  predicate ReadIsRight(out: Outcome, m: FlatSystem, t: Step) {
    t.Load? && out.Done? && m.current in m.memory && AllKnown(m.memory[m.current], t.va, t.size) ==>
      out.value == Widen(FlatBytes(m.memory[m.current], t.va, t.size))
  }

  // ---- runs ----

  /** A legal run: every step is enabled and none halts the machine. */
  ghost predicate Legal(s: State, steps: seq<Step>)
    decreases |steps|
  {
    steps != [] && Wf(s) ==>
      Enabled(s, steps[0]) && !Next(s, steps[0]).Halted? && Legal(Next(s, steps[0]).s, steps[1..])
  }

  /** A legal run whose every state has the structural invariant. */
  ghost predicate Run(s: State, steps: seq<Step>)
    decreases |steps|
  {
    Wf(s) && (steps != [] ==>
      Enabled(s, steps[0]) && !Next(s, steps[0]).Halted? && Run(Next(s, steps[0]).s, steps[1..]))
  }

  /** No step of the run drops a TLB entry whose dirty bit the IPT lacks. */
  ghost predicate RunLosesNothing(s: State, steps: seq<Step>)
    decreases |steps|
  {
    steps != [] && Wf(s) && Enabled(s, steps[0]) && !Next(s, steps[0]).Halted? ==>
      LosesNothing(s, steps[0]) && RunLosesNothing(Next(s, steps[0]).s, steps[1..])
  }

  ghost predicate EveryReadIsRight(s: State, m: FlatSystem, steps: seq<Step>)
    decreases |steps|
  {
    steps != [] && Wf(s) && Enabled(s, steps[0]) && !Next(s, steps[0]).Halted? ==>
      && ReadIsRight(Next(s, steps[0]), m, steps[0])
      && EveryReadIsRight(Next(s, steps[0]).s, FlatNext(m, steps[0], Next(s, steps[0]).Done?), steps[1..])
  }

  /** Before any process: no memory. */
  const NO_MEMORY := FlatSystem(map[], NULL_SPACE)

  lemma BootWf(numFrames: nat, swapPages: nat, random: bool)
    requires numFrames > 0
    ensures Wf(Boot(numFrames, swapPages, random)) && StandsFor(Boot(numFrames, swapPages, random), NO_MEMORY)
  {
  }

  /** Whatever is scheduled, the structure holds at every point of every legal run. */
  lemma {:induction false} EveryRunKeepsStructure(s: State, steps: seq<Step>)
    requires Wf(s) && Legal(s, steps)
    ensures Run(s, steps)
    decreases |steps|
  {
    if steps != [] {
      StepKeepsStructure(s, steps[0]);
      EveryRunKeepsStructure(Next(s, steps[0]).s, steps[1..]);
    }
  }

  lemma {:induction false} RunsRefineFlatMemoryFrom(s: State, m: FlatSystem, steps: seq<Step>)
    requires Run(s, steps) && RunLosesNothing(s, steps) && StandsFor(s, m)
    ensures EveryReadIsRight(s, m, steps)
    decreases |steps|
  {
    if steps != [] {
      StepRefines(s, steps[0], m);
      RunsRefineFlatMemoryFrom(Next(s, steps[0]).s, FlatNext(m, steps[0], Next(s, steps[0]).Done?), steps[1..]);
    }
  }

  /** Paging refines flat memory: from start-up, over every run of loads, stores, faults, FIFO or random evictions,
      dispatches, Forks and Execs that drops no unseen dirty bit, every load returns the flat bytes. */
  lemma {:induction false} PagingRefinesFlatMemory(numFrames: nat, swapPages: nat, random: bool, steps: seq<Step>)
    requires numFrames > 0
    requires Legal(Boot(numFrames, swapPages, random), steps)
    requires RunLosesNothing(Boot(numFrames, swapPages, random), steps)
    ensures EveryReadIsRight(Boot(numFrames, swapPages, random), NO_MEMORY, steps)
  {
    BootWf(numFrames, swapPages, random);
    EveryRunKeepsStructure(Boot(numFrames, swapPages, random), steps);
    RunsRefineFlatMemoryFrom(Boot(numFrames, swapPages, random), NO_MEMORY, steps);
  }

  /** After the handler returns, the same access is not faulted again, and is done: copyin's retry loop runs at most
      twice. */
  lemma RetrySucceeds(s: State, va: nat, size: nat, draw: nat)
    requires Wf(s) && CanEvict(s) && AccessSize(size) && Mapped(s, va) && ReadMem(s, va, size).0.PageFault?
    requires HandlePageFault(s, va / PAGE_SIZE, draw).Some?
    ensures ReadMem(HandlePageFault(s, va / PAGE_SIZE, draw).value, va, size).0.NoException?
    ensures forall value :: WriteMem(HandlePageFault(s, va / PAGE_SIZE, draw).value, va, size, value).0.NoException?
  {
    TranslateWf(s, va, size, false);
    FaultWf(s, va / PAGE_SIZE, draw);
    TranslateWf(HandlePageFault(s, va / PAGE_SIZE, draw).value, va, size, false);
    TranslateWf(HandlePageFault(s, va / PAGE_SIZE, draw).value, va, size, true);
  }
}

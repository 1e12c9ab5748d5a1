/** kern/env.c: creating and freeing environments. */
module EnvOps {
  import opened Layout
  import opened Graph
  import opened PageState
  import opened Tables
  import opened Steps
  import opened EnvId
  import opened EnvState
  import opened Tlb
  import opened Pmap

  /** How a call ends: normally, with an error code, or in a kernel panic. */
  datatype Outcome = Done | Failed(code: int) | Panicked

  const VGA_FLAGS := PWU.(mapped := true)
  const VGA_SLOT_I := 1
  const VGA_SLOT_J := 1

  /** The graph after environment `e` got directory `d` and table `t` with the screen mapped at VGA_USER. */
  ghost function WithEnv(g: Graph, e: nat, d: nat, t: nat): Graph {
    g[Dir(e) := Word(d, NO_FLAGS)][Pde(e, VGA_SLOT_I) := Word(t, PWU)]
     [Pte(e, VGA_SLOT_I, VGA_SLOT_J) := Word(VGA_PAGE, VGA_FLAGS)]
  }

  lemma WithEnvDirs(g: Graph, e: nat, d: nat, t: nat)
    ensures SameDirsExcept(g, WithEnv(g, e, d, t), e)
    ensures Dir(e) in WithEnv(g, e, d, t) && WithEnv(g, e, d, t)[Dir(e)].addr == d
  {
  }

  /** Two pages off the list, each counted once, and the screen counted once more. */
  ghost function CountsWithEnv(c: Counts): Counts
    requires |c.free| >= 2 && c.free[0] < |c.pages| && c.free[1] < |c.pages| && VGA_PAGE < |c.pages|
  {
    Incremented(Incremented(Popped(Incremented(Popped(c), c.free[0])), c.free[1]), VGA_PAGE)
  }

  lemma VgaIndexes()
    ensures PDX(VGA_USER) == VGA_SLOT_I && PTX(VGA_USER) == VGA_SLOT_J && VGA_USER < UTOP
  {
  }

  /** The screen is pinned: it is never free and never a table. */
  lemma ScreenIsData(c: Counts, g: Graph, m: seq<Frame>, b: Boot, h: Held)
    requires Inv(c, g, m, b, h)
    ensures 0 < VGA_PAGE < b.npages && VGA_PAGE !in c.free && NotTable(g, b, VGA_PAGE)
  {
  }

  /** Turning a page held by env_setup_vm into the directory of environment `e`. */
  lemma DirectoryReady(c: Counts, g: Graph, m: seq<Frame>, b: Boot, e: nat, p: nat)
    requires Inv(c, g, m, b, Held({p}, {}))
    requires p < |c.pages| && c.pages[p].ref == 0 && p !in c.free && p != b.kern
    requires e < NENV && Dir(e) !in g && 0 < p < |m| && p !in b.pinned && p < b.npages && b.kern < |m|
    requires forall s | s in g :: g[s].addr != p
    ensures var m1 := m[p := m[b.kern]];
      Inv(Incremented(c, p), g[Dir(e) := Word(p, NO_FLAGS)], m1[p := m1[p][UVPT_PDX := Word(p, PU)]], b, NOTHING)
  {
    hide Inv;
    var m1 := m[p := m[b.kern]];
    var m2 := m1[p := m1[p][UVPT_PDX := Word(p, PU)]];
    StepData(c, g, m, b, Held({p}, {}), p, m[b.kern]);
    StepData(c, g, m1, b, Held({p}, {}), p, m2[p]);
    StepIncrement(c, g, m2, b, Held({p}, {}), p);
    assert Held({p} - {p}, {} + {p}) == Held({}, {} + {p});
    StepAddDir(Incremented(c, p), g, m2, b, NOTHING, e, p);
  }

  /** Making page `p` the directory of environment `e`: a copy of kern_pgdir that maps itself at UVPT. */
  method FillDirectory(k: Kernel, e: nat, p: nat)
    requires k.PageInv(Held({p}, {})) && p < |k.pages| && k.pages[p].ref == 0 && p !in k.free && p != k.boot.kern
    requires e < NENV == |k.envs| && Dir(e) !in k.g && k.envs[e].pgdir == None
    requires 0 < p < |k.mem| && p !in k.boot.pinned && p < k.boot.npages && k.boot.kern < |k.mem|
    requires forall s | s in k.g :: k.g[s].addr != p
    modifies k`pages, k`mem, k`g, k`envs
    ensures k.PageInv(NOTHING) && k.g == old(k.g)[Dir(e) := Word(p, NO_FLAGS)]
    ensures k.C() == Incremented(old(k.C()), p)
    ensures k.envs == old(k.envs)[e := old(k.envs)[e].(pgdir := Some(p))]
    ensures |k.mem| == |old(k.mem)| && k.mem == old(k.mem)[p := k.mem[p]]
    ensures old(k.TlbOk()) ==> k.TlbOk()
  {
    hide Inv, Coherent;
    DirectoryReady(k.C(), k.g, k.mem, k.boot, e, p);
    DirectoryKeepsCoherence(k.tlbs, k.ThisCpu(), k.cpus, k.envs, k.C(), k.g, k.boot, k.mem, e, p);
    k.envs := k.envs[e := k.envs[e].(pgdir := Some(p))];
    k.mem := k.mem[p := k.mem[k.boot.kern]];
    k.pages := k.pages[p := k.pages[p].(ref := Increment(k.pages[p].ref))];
    k.mem := k.mem[p := k.mem[p][UVPT_PDX := Word(p, PU)]];
    k.g := k.g[Dir(e) := Word(p, NO_FLAGS)];
  }

  lemma DirectoryKeepsCoherence(tlbs: map<nat, Tlb>, cpu: nat, cpus: seq<Cpu>, envs: seq<Env>,
                                c: Counts, g: Graph, b: Boot, m: seq<Frame>, e: nat, p: nat)
    requires Inv(c, g, m, b, Held({p}, {})) && p < |m| && b.kern < |m| && p != b.kern
    requires forall s | s in g :: g[s].addr != p
    requires e < |envs| && envs[e].pgdir == None && Dir(e) !in g
    ensures var m1 := m[p := m[b.kern]]; var m2 := m1[p := m1[p][UVPT_PDX := Word(p, PU)]];
      Coherent(tlbs, cpu, cpus, envs, g, b, m) ==>
        Coherent(tlbs, cpu, cpus, envs[e := envs[e].(pgdir := Some(p))], g[Dir(e) := Word(p, NO_FLAGS)], b, m2)
  {
    hide Inv, Agrees, KeepsPresent;
    var m1 := m[p := m[b.kern]];
    var m2 := m1[p := m1[p][UVPT_PDX := Word(p, PU)]];
    DataKeepsCoherence(tlbs, cpu, cpus, envs, c, g, b, m, Held({p}, {}), p, m2[p]);
    assert m2 == m[p := m2[p]];
    if Coherent(tlbs, cpu, cpus, envs, g, b, m2) && cpu < |cpus| && cpu in tlbs && cpus[cpu].cr3 != b.kern {
      var e': nat :| Dir(e') in g && g[Dir(e')].addr == cpus[cpu].cr3;
      assert Dir(e') in g[Dir(e) := Word(p, NO_FLAGS)];
    }
  }

  /** If env_alloc gets as far as mapping the screen, the screen can be counted once more. */
  ghost predicate ScreenHasRoom(k: Kernel)
    reads k
  {
    k.envFree != [] && |k.free| >= 2 ==> VGA_PAGE < |k.pages| && k.pages[VGA_PAGE].ref < REF_LIMIT - 1
  }

  method EnvSetupVm(k: Kernel, e: nat) returns (r: Outcome)
    requires k.PageInv(NOTHING) && e < NENV == |k.envs| && Dir(e) !in k.g && k.envs[e].pgdir == None
    requires |k.free| >= 2 ==> VGA_PAGE < |k.pages| && k.pages[VGA_PAGE].ref < REF_LIMIT - 1
    modifies k`pages, k`pageFreeList, k`mem, k`free, k`tlbs, k`g, k`envs
    ensures r == if |old(k.free)| == 0 then Failed(E_NO_MEM) else if |old(k.free)| == 1 then Panicked else Done
    ensures old(k.TlbOk()) ==> k.TlbOk()
    ensures r.Failed? ==>
      k.C() == old(k.C()) && k.mem == old(k.mem) && k.g == old(k.g) && k.envs == old(k.envs) && k.PageInv(NOTHING)
    ensures r.Done? ==>
      var d, t := old(k.free)[0], old(k.free)[1];
      && k.PageInv(NOTHING)
      && d < k.boot.npages && t < k.boot.npages
      && k.envs == old(k.envs)[e := old(k.envs)[e].(pgdir := Some(d))]
      && k.g == WithEnv(old(k.g), e, d, t)
      && k.C() == CountsWithEnv(old(k.C()))
      && forall p | 0 <= p < k.boot.npages && p != d && p != t :: k.mem[p] == old(k.mem)[p]
  {
    hide Inv, Coherent;
    Sizes(k.C(), k.g, k.mem, k.boot, NOTHING);
    var page := k.PageAlloc(true, NOTHING);
    if page == None {
      return Failed(E_NO_MEM);
    }
    var p := page.value;
    StepPop(old(k.C()), old(k.g), old(k.mem), k.boot, NOTHING);
    HeldThenNothing(p);
    HeldThenNothing(VGA_PAGE);
    FillDirectory(k, e, p);
    NoDirNoEntries(old(k.C()), old(k.g), old(k.mem), k.boot, NOTHING, e);
    VgaIndexes();
    ScreenIsData(k.C(), k.g, k.mem, k.boot, NOTHING);
    var rc := k.PageInsert(p, VGA_PAGE, VGA_USER, VGA_FLAGS, e, NOTHING);
    if rc != 0 {
      return Panicked;
    }
    return Done;
  }

  const NEW_REGISTERS := 0

  /** What env_alloc makes of a free slot. */
  function NewEnv(v: Env, e: nat, parent: int, d: nat): Env {
    v.(pgdir := Some(d), id := NextId(v.id, e), parent := parent, status := Runnable, runs := 0,
       tf := Trapframe(0, NEW_REGISTERS), recving := false)
  }

  /** The rest of env_alloc, once env_setup_vm has given slot `e` its directory `d`. */
  method TakeSlot(k: Kernel, e: nat, parent: int, ghost envs: seq<Env>, ghost g0: Graph, ghost d: nat)
    requires EnvInv(envs, k.envFreeList, k.envFree, k.allocs, g0) && k.envFree != [] && e == k.envFree[0]
    requires e < NENV == |envs| && k.envs == envs[e := envs[e].(pgdir := Some(d))]
    requires SameDirsExcept(g0, k.g, e) && Dir(e) in k.g && k.g[Dir(e)].addr == d
    modifies k`envs, k`envFreeList, k`envFree, k`allocs
    ensures k.EnvsInv() && k.envs == envs[e := NewEnv(envs[e], e, parent, d)]
    ensures k.envFree == old(k.envFree)[1..]
    ensures |old(k.allocs)| == NENV && k.allocs == old(k.allocs)[e := old(k.allocs)[e] + 1]
    ensures old(k.TlbOk()) ==> k.TlbOk()
  {
    hide EnvInv, IdAfter, SameDirsExcept, Coherent;
    EnvSizes(envs, k.envFreeList, k.envFree, k.allocs, g0);
    var generation := Signed32(k.envs[e].id + GENERATION);
    generation := generation - generation % NENV;
    if generation <= 0 {
      generation := GENERATION;
    }
    k.envs := k.envs[e := k.envs[e].(id := generation + e)];
    k.envs := k.envs[e := k.envs[e].(parent := parent, status := Runnable, runs := 0)];
    k.envs := k.envs[e := k.envs[e].(tf := Trapframe(0, NEW_REGISTERS), recving := false)];
    k.envFreeList := k.envs[e].link;
    k.envFree := k.envFree[1..];
    k.allocs := k.allocs[e := k.allocs[e] + 1];
    assert k.envs == envs[e := NewEnv(envs[e], e, parent, d)];
    EnvsKeepCoherence(k.tlbs, k.ThisCpu(), k.cpus, old(k.envs), k.envs, k.g, k.boot, k.mem);
    NextIdIsLater(k.allocs[e] - 1, e);
    SlotTaken(envs, old(k.envFreeList), old(k.envFree), old(k.allocs), g0, k.envs[e], k.g);
  }

  method EnvAlloc(k: Kernel, parent: int) returns (r: Outcome, slot: nat)
    requires k.PageInv(NOTHING) && k.EnvsInv() && ScreenHasRoom(k)
    modifies k`pages, k`pageFreeList, k`mem, k`free, k`tlbs, k`g, k`envs, k`envFreeList, k`envFree, k`allocs
    ensures r == AllocOutcome(|old(k.envFree)|, |old(k.free)|)
    ensures old(k.TlbOk()) ==> k.TlbOk()
    ensures r.Failed? ==>
      && k.C() == old(k.C()) && k.mem == old(k.mem) && k.g == old(k.g) && k.envs == old(k.envs)
      && k.envFreeList == old(k.envFreeList) && k.envFree == old(k.envFree) && k.allocs == old(k.allocs)
      && k.PageInv(NOTHING) && k.EnvsInv()
    ensures r.Done? ==>
      var d, t := old(k.free)[0], old(k.free)[1];
      && k.PageInv(NOTHING) && k.EnvsInv()
      && slot == old(k.envFree)[0] && slot < NENV && Dir(slot) !in old(k.g)
      && d < k.boot.npages && t < k.boot.npages
      && k.envs == old(k.envs)[slot := NewEnv(old(k.envs)[slot], slot, parent, d)]
      && (var v := k.envs[slot];
          && v.status == Runnable && v.id == NextId(old(k.envs)[slot].id, slot) && v.parent == parent && v.runs == 0
          && v.pgdir == Some(d) && v.tf.eax == 0 && !v.recving)
      && k.envFree == old(k.envFree)[1..]
      && k.allocs == old(k.allocs)[slot := old(k.allocs)[slot] + 1]
      && k.g == WithEnv(old(k.g), slot, d, t)
      && k.C() == CountsWithEnv(old(k.C()))
      && forall p | 0 <= p < k.boot.npages && p != d && p != t :: k.mem[p] == old(k.mem)[p]
  {
    hide Inv, EnvInv, IdAfter, WithEnv, CountsWithEnv, SameDirsExcept, Coherent;
    EnvSizes(k.envs, k.envFreeList, k.envFree, k.allocs, k.g);
    if k.envFreeList == None {
      return Failed(E_NO_FREE_ENV), 0;
    }
    var e := k.envFreeList.value;
    slot := e;
    r := EnvSetupVm(k, e);
    if !r.Done? {
      return;
    }
    WithEnvDirs(old(k.g), e, old(k.free)[0], old(k.free)[1]);
    TakeSlot(k, e, parent, old(k.envs), old(k.g), old(k.free)[0]);
  }

  /** How env_alloc ends, by what is free. */
  function AllocOutcome(slots: nat, pages: nat): Outcome {
    if slots == 0 then Failed(E_NO_FREE_ENV)
    else if pages == 0 then Failed(E_NO_MEM)
    else if pages == 1 then Panicked
    else Done
  }

  /** What the comments above env_alloc and env_setup_vm promise: a directory and a table, or -E_NO_MEM. */
  function AllocDocumented(slots: nat, pages: nat): Outcome {
    if slots == 0 then Failed(E_NO_FREE_ENV) else if pages < 2 then Failed(E_NO_MEM) else Done
  }

  /** The comment holds except with exactly one free page: the page_insert of the screen then fails in an assertion. */
  lemma AllocMeetsItsComment(slots: nat, pages: nat)
    ensures AllocOutcome(slots, pages) == AllocDocumented(slots, pages) <==> !(slots > 0 && pages == 1)
  {
  }

  /** Slot `s` belongs to environment `e`. */
  predicate Owned(s: Slot, e: nat) {
    (s.Dir? || s.Pde? || s.Pte?) && s.e == e
  }

  /** The graph after environment `e` is gone. */
  ghost function WithoutEnv(g: Graph, e: nat): Graph {
    map s | s in g && !Owned(s, e) :: g[s]
  }

  lemma WithoutEnvDirs(g: Graph, e: nat)
    ensures SameDirsExcept(g, WithoutEnv(g, e), e) && Dir(e) !in WithoutEnv(g, e)
  {
  }

  /** Slot `s` of environment `e` has been cleared when env_free stands at entry j of table i. */
  predicate Passed(s: Slot, e: nat, i: nat, j: nat) {
    || (s.Pde? && s.e == e && s.i < i)
    || (s.Pte? && s.e == e && (s.i < i || (s.i == i && s.j < j)))
  }

  ghost function Cleared(g: Graph, e: nat, i: nat, j: nat): Graph {
    map s | s in g && !Passed(s, e, i, j) :: g[s]
  }

  lemma ClearNothing(g: Graph, e: nat)
    ensures Cleared(g, e, 0, 0) == g
  {
  }

  lemma ClearShrinks(g: Graph, e: nat, i: nat, j: nat)
    ensures forall s | s in Cleared(g, e, i, j) :: s in g && Cleared(g, e, i, j)[s] == g[s]
    ensures forall n: nat | Kern(n) in g :: Kern(n) in Cleared(g, e, i, j)
  {
  }

  lemma ClearKeepsOthers(g: Graph, e: nat, i: nat, j: nat)
    ensures Dir(e) in g ==> Dir(e) in Cleared(g, e, i, j) && Cleared(g, e, i, j)[Dir(e)] == g[Dir(e)]
    ensures Pde(e, i) in g ==> Pde(e, i) in Cleared(g, e, i, j) && Cleared(g, e, i, j)[Pde(e, i)] == g[Pde(e, i)]
  {
  }

  lemma ClearEntry(g: Graph, e: nat, i: nat, j: nat)
    ensures Cleared(g, e, i, j) - {Pte(e, i, j)} == Cleared(g, e, i, j + 1)
    ensures Pte(e, i, j) !in g ==> Cleared(g, e, i, j) == Cleared(g, e, i, j + 1)
  {
  }

  lemma ClearRow(g: Graph, e: nat, i: nat)
    requires forall j: nat | Pte(e, i, j) in g :: j < NPTENTRIES && Pde(e, i) in g
    ensures Cleared(g, e, i, NPTENTRIES) - {Pde(e, i)} == Cleared(g, e, i + 1, 0)
    ensures Pde(e, i) !in g ==> Cleared(g, e, i, 0) == Cleared(g, e, i + 1, 0)
    ensures Pde(e, i) in g <==> Pde(e, i) in Cleared(g, e, i, 0)
    ensures Dir(e) in g ==> Dir(e) in Cleared(g, e, i + 1, 0) && Cleared(g, e, i + 1, 0)[Dir(e)] == g[Dir(e)]
    ensures forall j: nat :: Pte(e, i, j) !in Cleared(g, e, i, NPTENTRIES)
  {
  }

  lemma ClearAll(g: Graph, e: nat)
    requires forall i: nat | Pde(e, i) in g :: i < USER_PDES
    requires forall i: nat, j: nat | Pte(e, i, j) in g :: i < USER_PDES
    ensures Cleared(g, e, USER_PDES, 0) - {Dir(e)} == WithoutEnv(g, e)
    ensures forall i: nat :: Pde(e, i) !in Cleared(g, e, USER_PDES, 0)
  {
  }

  /** PGADDR(i, j, 0). */
  function PageAddress(i: nat, j: nat): (va: nat)
    requires i < USER_PDES && j < NPTENTRIES
    ensures va < UTOP && PDX(va) == i && PTX(va) == j
  {
    var va := i * PTSIZE + j * PGSIZE;
    assert va / PGSIZE == i * NPTENTRIES + j;
    va
  }

  /** `xs` is `ys` with pages pushed in front. */
  ghost predicate Extends(xs: seq<nat>, ys: seq<nat>) {
    |xs| >= |ys| && xs[|xs| - |ys|..] == ys
  }

  lemma ExtendsRefl(xs: seq<nat>)
    ensures Extends(xs, xs)
  {
  }

  lemma ExtendsPush(p: nat, xs: seq<nat>, ys: seq<nat>)
    requires Extends(xs, ys)
    ensures Extends([p] + xs, ys)
  {
  }

  lemma ExtendsTransitive(xs: seq<nat>, ys: seq<nat>, zs: seq<nat>)
    requires Extends(xs, ys) && Extends(ys, zs)
    ensures Extends(xs, zs)
  {
    assert xs[|xs| - |zs|..] == ys[|ys| - |zs|..];
  }

  /** Pages holding data keep their contents, and so do kern_pgdir and the kernel's tables. */
  ghost predicate SameData(g: Graph, b: Boot, m: seq<Frame>, m': seq<Frame>) {
    && |m| == |m'| == b.npages && (b.kern < |m| ==> m'[b.kern] == m[b.kern])
    && (forall p | 0 <= p < b.npages && NotTable(g, b, p) :: m'[p] == m[p])
    && forall i: nat | Kern(i) in g && g[Kern(i)].addr < |m| :: m'[g[Kern(i)].addr] == m[g[Kern(i)].addr]
  }

  lemma SameDataRefl(g: Graph, b: Boot, m: seq<Frame>)
    requires |m| == b.npages
    ensures SameData(g, b, m, m)
  {
  }

  lemma SameDataTransitive(g: Graph, g1: Graph, b: Boot, m: seq<Frame>, m1: seq<Frame>, m2: seq<Frame>)
    requires SameData(g, b, m, m1) && (m1 == m2 || SameData(g1, b, m1, m2))
    requires forall s | s in g1 :: s in g && g1[s] == g[s]
    requires forall i: nat | Kern(i) in g :: Kern(i) in g1
    ensures SameData(g, b, m, m2)
  {
  }

  /** Writes to a directory and to one of its tables. */
  lemma OwnTablesOnly(c: Counts, g: Graph, m: seq<Frame>, b: Boot, e: nat, i: nat, m': seq<Frame>)
    requires Inv(c, g, m, b, NOTHING) && Dir(e) in g && Pde(e, i) in g && |m'| == |m|
    requires forall p | 0 <= p < |m| && p != g[Dir(e)].addr && p != g[Pde(e, i)].addr :: m'[p] == m[p]
    ensures SameData(g, b, m, m')
  {
    hide CountInv;
    OtherTablesUntouched(g, b, Dir(e));
    OtherTablesUntouched(g, b, Pde(e, i));
  }

  /** Clearing entry (i, j) of environment `e`. */
  method ClearPte(k: Kernel, d: nat, t: nat, i: nat, j: nat, ghost e: nat, ghost g0: Graph)
    requires k.PageInv(NOTHING) && k.IsDir(e, d) && i < USER_PDES && j < NPTENTRIES
    requires k.g == Cleared(g0, e, i, j) && Pde(e, i) in k.g && k.g[Pde(e, i)].addr == t
    modifies k`pages, k`pageFreeList, k`mem, k`free, k`tlbs, k`g
    ensures k.PageInv(NOTHING) && k.g == Cleared(g0, e, i, j + 1)
    ensures Extends(k.free, old(k.free))
    ensures t < |k.mem| == |old(k.mem)| && k.mem == old(k.mem)[t := k.mem[t]]
    ensures old(k.TlbOk()) ==> k.TlbOk()
  {
    hide Inv, Coherent;
    k.EntryFollowsGraph(e, d, i, NOTHING);
    ClearEntry(g0, e, i, j);
    if k.mem[t][j].flags.p {
      k.PageRemove(d, PageAddress(i, j), e, k.C(), NOTHING);
    }
  }

  /** Unmapping every page of table `i`, then clearing the directory entry and dropping the table. */
  method FreeTable(k: Kernel, d: nat, i: nat, ghost e: nat, ghost g0: Graph)
    requires k.PageInv(NOTHING) && k.IsDir(e, d) && i < USER_PDES
    requires k.g == Cleared(g0, e, i, 0) && Pde(e, i) in k.g && d < |k.mem| && k.mem[d][i].flags.p
    requires forall j: nat | Pte(e, i, j) in g0 :: j < NPTENTRIES && Pde(e, i) in g0
    requires !Loaded(k.cpus, k.ThisCpu(), d)
    modifies k`pages, k`pageFreeList, k`mem, k`free, k`tlbs, k`g
    ensures k.PageInv(NOTHING) && k.g == Cleared(g0, e, i + 1, 0)
    ensures Extends(k.free, old(k.free))
    ensures SameData(old(k.g), k.boot, old(k.mem), k.mem)
    ensures old(k.TlbOk()) ==> k.TlbOk()
  {
    hide Inv, Cleared, Extends, Decremented, Coherent, SameData;
    ExtendsRefl(k.free);
    Sizes(k.C(), k.g, k.mem, k.boot, NOTHING);
    ghost var c0, g1, m0 := k.C(), k.g, k.mem;
    ClearShrinks(g0, e, i, 0);
    k.EntryFollowsGraph(e, d, i, NOTHING);
    var t := k.mem[d][i].addr;
    ghost var word := k.g[Pde(e, i)];
    for pteno := 0 to NPTENTRIES
      invariant k.PageInv(NOTHING) && k.g == Cleared(g0, e, i, pteno)
      invariant k.IsDir(e, d) && Pde(e, i) in k.g && k.g[Pde(e, i)] == word
      invariant Extends(k.free, old(k.free))
      invariant t < |k.mem| == |old(k.mem)| && k.mem == old(k.mem)[t := k.mem[t]]
      invariant old(k.TlbOk()) ==> k.TlbOk()
    {
      ghost var f, m := k.free, k.mem;
      ClearPte(k, d, t, i, pteno, e, g0);
      ClearKeepsOthers(g0, e, i, pteno + 1);
      ExtendsTransitive(k.free, f, old(k.free));
    }
    ClearRow(g0, e, i);
    StepDropTable(k.C(), k.g, k.mem, k.boot, NOTHING, Pde(e, i));
    ClearingKeepsCoherence(k.tlbs, k.ThisCpu(), k.cpus, k.envs, k.C(), k.g, k.boot, k.mem, NOTHING, e, i);
    k.mem := k.mem[d := k.mem[d][i := ZERO]];
    k.g := k.g - {Pde(e, i)};
    OwnTablesOnly(c0, g1, m0, k.boot, e, i, k.mem);
    ghost var f := k.free;
    DecrementedFree(k.C(), t);
    k.PageDecref(t);
    ExtendsPush(t, f, old(k.free));
  }

  /** The outer loop of env_free: flush every mapped page in the user half of the address space. */
  method FreeUserHalf(k: Kernel, d: nat, ghost e: nat)
    requires k.PageInv(NOTHING) && k.IsDir(e, d) && !Loaded(k.cpus, k.ThisCpu(), d)
    modifies k`pages, k`pageFreeList, k`mem, k`free, k`tlbs, k`g
    ensures k.PageInv(NOTHING) && k.IsDir(e, d)
    ensures old(k.TlbOk()) ==> k.TlbOk()
    ensures k.g - {Dir(e)} == WithoutEnv(old(k.g), e) && forall i: nat :: Pde(e, i) !in k.g
    ensures Extends(k.free, old(k.free))
    ensures SameData(old(k.g), k.boot, old(k.mem), k.mem)
  {
    hide Inv, Cleared, SameData, NotTable, Extends, WithoutEnv, Coherent;
    ghost var g0, f0, m0 := k.g, k.free, k.mem;
    Sizes(k.C(), k.g, k.mem, k.boot, NOTHING);
    Shape(k.C(), k.g, k.mem, k.boot, NOTHING);
    ClearNothing(g0, e);
    SameDataRefl(g0, k.boot, k.mem);
    ExtendsRefl(f0);
    for pdeno := 0 to USER_PDES
      invariant k.PageInv(NOTHING) && k.g == Cleared(g0, e, pdeno, 0) && k.IsDir(e, d)
      invariant Extends(k.free, f0) && SameData(g0, k.boot, m0, k.mem)
      invariant old(k.TlbOk()) ==> k.TlbOk()
    {
      ghost var g1, f, m := k.g, k.free, k.mem;
      ClearShrinks(g0, e, pdeno, 0);
      k.EntryFollowsGraph(e, d, pdeno, NOTHING);
      ClearRow(g0, e, pdeno);
      if k.mem[d][pdeno].flags.p {
        FreeTable(k, d, pdeno, e, g0);
        ExtendsTransitive(k.free, f, f0);
      }
      SameDataTransitive(g0, g1, k.boot, m0, m, k.mem);
    }
    ClearAll(g0, e);
  }

  /** `e->env_pgdir = 0` and the page_decref of the directory, which no CPU may have loaded any more. */
  method FreeDirectory(k: Kernel, d: nat, e: nat)
    requires k.PageInv(NOTHING) && k.IsDir(e, d) && e < |k.envs|
    requires forall i: nat :: Pde(e, i) !in k.g
    requires forall c | 0 <= c < |k.cpus| :: k.cpus[c].cr3 != d
    requires k.envs[e].pgdir == Some(d)
    modifies k`pages, k`pageFreeList, k`free, k`g, k`envs
    ensures k.PageInv(NOTHING) && k.g == old(k.g) - {Dir(e)} && k.free == [d] + old(k.free)
    ensures k.envs == old(k.envs)[e := old(k.envs)[e].(pgdir := None)]
    ensures old(k.TlbOk()) ==> k.TlbOk()
  {
    hide Inv, Decremented, Coherent;
    StepDropDir(k.C(), k.g, k.mem, k.boot, NOTHING, e);
    DroppingKeepsCoherence(k.tlbs, k.ThisCpu(), k.cpus, k.envs, k.g, k.boot, k.mem, e);
    DecrementedFree(k.C(), d);
    k.envs := k.envs[e := k.envs[e].(pgdir := None)];
    k.g := k.g - {Dir(e)};
    k.PageDecref(d);
  }

  /** The slot goes in front of the free list. */
  method ReturnSlot(k: Kernel, e: nat, ghost envs: seq<Env>, ghost g0: Graph)
    requires EnvInv(envs, k.envFreeList, k.envFree, k.allocs, g0)
    requires e < NENV == |envs| && envs[e].status != Free && k.envs == envs[e := envs[e].(pgdir := None)]
    requires SameDirsExcept(g0, k.g, e) && Dir(e) !in k.g
    modifies k`envs, k`envFreeList, k`envFree
    ensures k.EnvsInv() && k.envFree == [e] + old(k.envFree)
    ensures k.envs == envs[e := envs[e].(pgdir := None, status := Free, link := old(k.envFreeList))]
    ensures old(k.TlbOk()) ==> k.TlbOk()
  {
    hide EnvInv, SameDirsExcept, Coherent;
    SlotReturned(envs, k.envFreeList, k.envFree, k.allocs, g0, e, k.g);
    k.envs := k.envs[e := k.envs[e].(status := Free, link := k.envFreeList)];
    EnvsKeepCoherence(k.tlbs, k.ThisCpu(), k.cpus, old(k.envs), k.envs, k.g, k.boot, k.mem);
    k.envFreeList := Some(e);
    k.envFree := [e] + k.envFree;
    assert k.envs == envs[e := envs[e].(pgdir := None, status := Free, link := old(k.envFreeList))];
  }

  lemma DirectoryIsNotKern(c: Counts, g: Graph, m: seq<Frame>, b: Boot, e: nat)
    requires Inv(c, g, m, b, NOTHING)
    ensures Dir(e) in g ==> g[Dir(e)].addr != b.kern && g[Dir(e)].addr !in c.free
  {
    Sizes(c, g, m, b, NOTHING);
  }

  /** No CPU has the directory of `e` loaded, except perhaps CPU `c` while it runs `e`. */
  ghost predicate LoadedHereOnly(cpus: seq<Cpu>, c: nat, e: nat, dir: Option<nat>) {
    forall c' | 0 <= c' < |cpus| && Some(cpus[c'].cr3) == dir :: c' == c && cpus[c'].env == Some(e)
  }

  /** env_free on CPU `c`. When the directory is given back, no CPU has it loaded any more. */
  method EnvFree(k: Kernel, c: nat, e: nat)
    requires k.PageInv(NOTHING) && k.EnvsInv() && c < |k.cpus|
    requires e < NENV == |k.envs| && k.envs[e].status != Free
    requires LoadedHereOnly(k.cpus, c, e, k.envs[e].pgdir)
    modifies k`pages, k`pageFreeList, k`mem, k`free, k`tlbs, k`g, k`envs, k`envFreeList, k`envFree, k`cpus
    ensures k.PageInv(NOTHING) && k.EnvsInv()
    ensures k.g == WithoutEnv(old(k.g), e)
    ensures k.envs == old(k.envs)[e := old(k.envs)[e].(pgdir := None, status := Free, link := old(k.envFreeList))]
    ensures k.envFree == [e] + old(k.envFree)
    ensures k.free != [] && Some(k.free[0]) == old(k.envs)[e].pgdir && Extends(k.free[1..], old(k.free))
    ensures SameData(old(k.g), k.boot, old(k.mem), k.mem)
    ensures k.cpus == if old(k.cpus)[c].env == Some(e) then old(k.cpus)[c := old(k.cpus)[c].(cr3 := k.boot.kern)]
                      else old(k.cpus)
    ensures old(k.TlbOk()) ==> k.TlbOk()
  {
    hide Inv, EnvInv, WithoutEnv, SameData, IdAfter, SameDirsExcept, Extends, Coherent;
    ghost var envs := k.envs;
    DirectoryIsNotKern(k.C(), k.g, k.mem, k.boot, e);
    Sizes(k.C(), k.g, k.mem, k.boot, NOTHING);
    SlotInUse(k.envs, k.envFreeList, k.envFree, k.allocs, k.g, e);
    if k.cpus[c].env == Some(e) {
      k.Lcr3(c, k.boot.kern);
    }
    var d := k.envs[e].pgdir.value;
    WithoutEnvDirs(k.g, e);
    FreeUserHalf(k, d, e);
    FreeDirectory(k, d, e);
    assert k.g == WithoutEnv(old(k.g), e);
    ReturnSlot(k, e, envs, old(k.g));
  }
}

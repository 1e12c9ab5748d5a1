/** kern/syscall.c: the memory and IPC system calls, made by the environment current on CPU `c`. */
module Syscall {
  import opened Layout
  import opened Graph
  import opened PageState
  import opened Tables
  import opened Steps
  import opened EnvId
  import opened EnvState
  import opened Pmap
  import opened EnvOps
  import opened AddressSpace

  /** How a system call ends: with a return value, in a panic, or in page_insert(NULL), which stores through a null
      pointer. */
  datatype Result = Ret(code: int) | Panic | NullPage

  /** CPU `c` is in a system call of a live environment. */
  ghost predicate InSyscall(k: Kernel, c: nat)
    reads k
  {
    && k.PageInv(NOTHING) && k.EnvsInv()
    && c < |k.cpus| && k.cpus[c].env.Some? && k.cpus[c].env.value < NENV == |k.envs|
    && k.envs[k.cpus[c].env.value].status != Free
  }

  /** envid2env: 0 is the caller, any other id must be the current id of its slot. */
  function Resolve(envs: seq<Env>, cur: nat, envid: int, checkperm: bool): (r: Option<nat>)
    requires cur < NENV == |envs|
    ensures r.Some? ==> r.value < NENV
  {
    if envid == 0 then Some(cur)
    else
      var e := EnvX(envid);
      if envs[e].status == Free || envs[e].id != envid then None
      else if checkperm && e != cur && envs[e].parent != envs[cur].id then None
      else Some(e)
  }

  method Envid2Env(k: Kernel, c: nat, envid: int, checkperm: bool) returns (r: Option<nat>)
    requires c < |k.cpus| && k.cpus[c].env.Some? && k.cpus[c].env.value < NENV == |k.envs|
    ensures r == Resolve(k.envs, k.cpus[c].env.value, envid, checkperm)
  {
    var curenv := k.cpus[c].env.value;
    if envid == 0 {
      return Some(curenv);
    }
    var e := EnvX(envid);
    if k.envs[e].status == Free || k.envs[e].id != envid {
      return None;
    }
    if checkperm && e != curenv && k.envs[e].parent != k.envs[curenv].id {
      return None;
    }
    return Some(e);
  }

  /** A nonzero id names the one live environment that has it, or none. */
  lemma ResolveFindsTheHolder(envs: seq<Env>, head: Option<nat>, list: seq<nat>, allocs: seq<nat>, g: Graph,
                              cur: nat, envid: int, e: nat)
    requires EnvInv(envs, head, list, allocs, g)
    requires cur < NENV && envid != 0 && e < NENV
    ensures Resolve(envs, cur, envid, false) == Some(e) <==> envs[e].status != Free && envs[e].id == envid
  {
    if envs[e].status != Free {
      IdClosedForm(allocs[e], e);
    }
  }

  /** With checkperm a nonzero id is accepted exactly for the live environment that has it, if that is the caller or a
      child of the caller; 0 is always the caller. */
  lemma AcceptedExactly(envs: seq<Env>, head: Option<nat>, list: seq<nat>, allocs: seq<nat>, g: Graph, cur: nat,
                        envid: int, e: nat, checkperm: bool)
    requires EnvInv(envs, head, list, allocs, g)
    requires cur < NENV && e < NENV
    ensures Resolve(envs, cur, 0, checkperm) == Some(cur)
    ensures envid != 0 ==>
      (Resolve(envs, cur, envid, true) == Some(e) <==>
        envs[e].status != Free && envs[e].id == envid && (e == cur || envs[e].parent == envs[cur].id))
    ensures envs[cur].status != Free ==> Resolve(envs, cur, envs[cur].id, checkperm) == Some(cur)
  {
    if envs[e].status != Free {
      IdClosedForm(allocs[e], e);
    }
    if envs[cur].status != Free {
      IdClosedForm(allocs[cur], cur);
    }
  }

  /** An id handed out at the k-th allocation of slot `e` is accepted later exactly while the slot is in use and has
      been allocated a multiple of 2^19 - 1 times since. */
  lemma StaleIdsRejected(envs: seq<Env>, head: Option<nat>, list: seq<nat>, allocs: seq<nat>, g: Graph,
                         cur: nat, e: nat, k: nat)
    requires EnvInv(envs, head, list, allocs, g)
    requires cur < NENV && e < NENV && 0 < k <= allocs[e]
    ensures Resolve(envs, cur, IdAfter(k, e), false) == Some(e) <==>
            envs[e].status != Free && (allocs[e] - k) % CYCLE == 0
  {
    IdClosedForm(k, e);
    IdRepeats(k, allocs[e], e);
    ResolveFindsTheHolder(envs, head, list, allocs, g, cur, IdAfter(k, e), e);
  }

  /** An `int perm`: PTE_U and PTE_P set, and nothing outside PTE_SYSCALL. */
  predicate PermOk(perm: Word) {
    perm.flags.u && perm.flags.p && perm.addr == 0 && OnlySyscallBits(perm.flags)
  }

  /** As a word: 0x004 and 0x001 are set, and nothing outside 0xE07. */
  lemma PermIsMask(perm: Word)
    ensures PermOk(perm) <==>
      perm.addr == 0 && Bits(perm.flags) & 0x004 != 0 && Bits(perm.flags) & 0x001 != 0 && Bits(perm.flags) & 0x1F8 == 0
  {
    EachBit(perm.flags);
    FlagsAreBits(perm.flags, NO_FLAGS);
    hide Bits, OnlySyscallBits;
  }

  predicate UserPage(va: nat) {
    va < UTOP && va % PGSIZE == 0
  }

  /** Environment `e` sees `w` at `va`, and nobody sees any other change. */
  ghost predicate Remapped(g: Graph, g': Graph, e: nat, va: nat, w: Word)
    requires va < UTOP
  {
    && Flat(g', e) == Flat(g, e)[PGNUM(va) := w]
    && (forall e': nat | e' != e :: Flat(g', e') == Flat(g, e'))
    && SameDirs(g, g')
  }

  ghost predicate SameDirs(g: Graph, g': Graph) {
    forall e: nat :: (Dir(e) in g <==> Dir(e) in g') && (Dir(e) in g ==> g'[Dir(e)] == g[Dir(e)])
  }

  /** The contents of every mapped page are kept, and those of kern_pgdir and the kernel's tables. */
  ghost predicate SameMapped(g: Graph, b: Boot, m: seq<Frame>, m': seq<Frame>) {
    && |m| == |m'| && b.kern < |m| && m'[b.kern] == m[b.kern]
    && forall s: Slot | (s.Pte? || s.Kern?) && s in g :: g[s].addr < |m| && m'[g[s].addr] == m[g[s].addr]
  }

  lemma InsertRemaps(g: Graph, free: seq<nat>, e: nat, va: nat, w: Word)
    requires va < UTOP && (Pde(e, PDX(va)) in g || free != [])
    ensures Remapped(g, WithTable(g, free, e, PDX(va))[At(e, va) := w], e, va, w)
  {
    hide Flat;
    var g1 := WithTable(g, free, e, PDX(va));
    SamePages(g, g1);
    InsertUpdates(g1, e, va, w);
  }

  /** An insertion writes one directory, one table and perhaps a page that was free: no mapped page. */
  lemma InsertSparesData(c: Counts, g: Graph, m: seq<Frame>, b: Boot, h: Held, m': seq<Frame>, e: nat, i: nat, d: nat,
                         t: nat)
    requires Inv(c, g, m, b, h) && |m'| == |m|
    requires Dir(e) in g && g[Dir(e)].addr == d
    requires if Pde(e, i) in g then t == g[Pde(e, i)].addr else c.free != [] && t == c.free[0]
    requires forall p | 0 <= p < b.npages && p != d && p != t :: m'[p] == m[p]
    ensures SameMapped(g, b, m, m')
  {
    Sizes(c, g, m, b, h);
    OtherTablesUntouched(g, b, Dir(e));
    if Pde(e, i) in g {
      OtherTablesUntouched(g, b, Pde(e, i));
    }
  }

  /** At most `n` pages fewer are free, no table is gone, and no page in use has been counted up but perhaps `pp`, once.
      */
  ghost predicate Cost(c: Counts, g: Graph, c': Counts, g': Graph, n: nat, pp: Option<nat>) {
    && |c'.pages| == |c.pages| && |c'.free| + n >= |c.free|
    && (forall e: nat, i: nat | Pde(e, i) in g :: Pde(e, i) in g')
    && forall p | 0 <= p < |c.pages| && p !in c.free ::
       c'.pages[p].ref <= c.pages[p].ref + if pp == Some(p) then 1 else 0
  }

  /** Pages that a missing table for `va` costs. */
  ghost function TableCost(g: Graph, e: nat, va: nat): nat
    requires va < ADDRESS_LIMIT
  {
    if Pde(e, PDX(va)) in g then 0 else 1
  }

  lemma NoCost(c: Counts, g: Graph)
    ensures Cost(c, g, c, g, 0, None)
  {
  }

  /** Taking a free page and mapping it costs that page, and counts up no page in use. */
  lemma TakenCosts(c: Counts, g: Graph, c': Counts, g': Graph, n: nat)
    requires c.free != [] && c.free[0] < |c.pages|
    requires Cost(Popped(c), g, c', g', n, Some(c.free[0]))
    ensures Cost(c, g, c', g', n + 1, None)
  {
    assert c.free == [c.free[0]] + Popped(c).free;
  }

  /** page_insert costs a page only for a missing table, and counts only the page mapped. */
  lemma InsertCosts(c: Counts, c': Counts, g: Graph, e: nat, va: nat, w: Word)
    requires va < UTOP && w.addr < |c.pages| && w.addr !in c.free && HasRoomAt(c, g, w.addr, At(e, va))
    requires c.pages[w.addr].ref < REF_LIMIT
    requires At(e, va) in g ==> Pde(e, PDX(va)) in g
    requires Pde(e, PDX(va)) in g || c.free != []
    requires CountsAfterInsert(c, c', g, w.addr, e, PDX(va), PTX(va))
    ensures Cost(c, g, c', WithTable(g, c.free, e, PDX(va))[At(e, va) := w], TableCost(g, e, va), Some(w.addr))
  {
    if Pde(e, PDX(va)) !in g {
      assert c.free[0] in c.free;
    }
  }

  /** page_insert as the system calls use it, in terms of the flat maps. */
  method InsertPage(k: Kernel, e: nat, pp: nat, va: nat, perm: Flags, ghost h: Held) returns (rc: int)
    requires k.PageInv(h) && k.EnvsInv() && h.ahead == {}
    requires e < NENV == |k.envs| && k.envs[e].status != Free && va < UTOP
    requires 0 < pp < k.boot.npages && NotTable(k.g, k.boot, pp) && pp !in k.free
    requires pp < |k.pages| && (Pde(e, PDX(va)) in k.g || k.free != [] ==> HasRoomAt(k.C(), k.g, pp, At(e, va)))
    modifies k`pages, k`pageFreeList, k`mem, k`free, k`tlbs, k`g
    ensures old(k.TlbOk()) ==> k.TlbOk()
    ensures rc == (if Pde(e, PDX(va)) !in old(k.g) && old(k.free) == [] then E_NO_MEM else 0)
    ensures k.EnvsInv()
    ensures rc == E_NO_MEM ==> k.C() == old(k.C()) && k.mem == old(k.mem) && k.g == old(k.g) && k.PageInv(h)
    ensures rc == 0 ==>
      && k.PageInv(h.(taken := h.taken - {pp}))
      && Remapped(old(k.g), k.g, e, va, Word(pp, perm.(p := true)))
      && SameMapped(old(k.g), k.boot, old(k.mem), k.mem)
      && |k.mem| == |old(k.mem)| > pp && k.mem[pp] == old(k.mem)[pp]
      && pp < |k.pages| && k.pages[pp].ref <= old(k.pages)[pp].ref + 1
      && Pde(e, PDX(va)) in k.g
      && Cost(old(k.C()), old(k.g), k.C(), k.g, TableCost(old(k.g), e, va), Some(pp))
  {
    hide Inv, EnvInv, Cost, NotTable, WithTable, CountsAfterInsert, Remapped, SameMapped, Coherent;
    SlotInUse(k.envs, k.envFreeList, k.envFree, k.allocs, k.g, e);
    Sizes(k.C(), k.g, k.mem, k.boot, h);
    SixteenBits(k.C(), k.g, k.mem, k.boot, h, pp);
    k.WalkFollowsGraph(e, k.envs[e].pgdir.value, va, h);
    rc := k.PageInsert(k.envs[e].pgdir.value, pp, va, perm, e, h);
    if rc == 0 {
      Sizes(k.C(), k.g, k.mem, k.boot, h.(taken := h.taken - {pp}));
      ghost var w := Word(pp, perm.(p := true));
      InsertRemaps(old(k.g), old(k.free), e, va, w);
      InsertCosts(old(k.C()), k.C(), old(k.g), e, va, w);
      NewTable(old(k.g), old(k.free), e, va, w);
      InsertSparesData(old(k.C()), old(k.g), old(k.mem), k.boot, h, k.mem, e, PDX(va), k.envs[e].pgdir.value,
                       k.g[Pde(e, PDX(va))].addr);
      RemappedKeepsEnvs(k, old(k.g), e, va, w);
      DataIsNoTable(old(k.C()), old(k.g), k.boot, pp, e, PDX(va));
      CountedOnceMore(old(k.C()), k.C(), old(k.g), pp, e, PDX(va), PTX(va));
    }
  }

  lemma RemappedKeepsEnvs(k: Kernel, g: Graph, e: nat, va: nat, w: Word)
    requires va < UTOP && Remapped(g, k.g, e, va, w)
    requires EnvInv(k.envs, k.envFreeList, k.envFree, k.allocs, g)
    ensures k.EnvsInv()
  {
    hide EnvInv;
    DirsSame(k.envs, k.envFreeList, k.envFree, k.allocs, g, k.g);
  }

  lemma NewTable(g: Graph, free: seq<nat>, e: nat, va: nat, w: Word)
    requires va < UTOP && (Pde(e, PDX(va)) in g || free != [])
    ensures var g' := WithTable(g, free, e, PDX(va))[At(e, va) := w];
      && Pde(e, PDX(va)) in g'
      && g'[Pde(e, PDX(va))].addr == if Pde(e, PDX(va)) in g then g[Pde(e, PDX(va))].addr else free[0]
  {
  }

  lemma CountedOnceMore(c: Counts, c': Counts, g: Graph, pp: nat, e: nat, i: nat, j: nat)
    requires pp < |c.pages| && pp !in c.free && HasRoomAt(c, g, pp, Pte(e, i, j)) && c.pages[pp].ref < REF_LIMIT
    requires Pte(e, i, j) in g ==> Pde(e, i) in g
    requires CountsAfterInsert(c, c', g, pp, e, i, j)
    ensures pp < |c'.pages| && c'.pages[pp].ref <= c.pages[pp].ref + 1
  {
  }

  lemma DataIsNoTable(c: Counts, g: Graph, b: Boot, pp: nat, e: nat, i: nat)
    requires NotTable(g, b, pp) && pp !in c.free
    ensures Dir(e) in g ==> g[Dir(e)].addr != pp
    ensures Pde(e, i) in g ==> g[Pde(e, i)].addr != pp
    ensures c.free != [] ==> c.free[0] != pp
  {
  }

  /** Enough free pages to map something at `va`: one for a missing table. */
  ghost predicate TableAvailable(g: Graph, free: nat, e: nat, va: nat)
    requires va < ADDRESS_LIMIT
  {
    Pde(e, PDX(va)) in g || free > 0
  }

  /** What a zeroed page of its own at `va` takes: the page, and perhaps one more for a missing table. */
  ghost predicate PageAvailable(g: Graph, free: nat, e: nat, va: nat)
    requires va < ADDRESS_LIMIT
  {
    free > 0 && TableAvailable(g, free - 1, e, va)
  }

  /** Page `p`, taken from the free list and zeroed, is mapped at `va` and nowhere else. */
  ghost predicate ZeroedPageAt(c: Counts, g: Graph, b: Boot, c': Counts, g': Graph, m': seq<Frame>, e: nat, va: nat,
                               perm: Flags)
    requires va < UTOP
  {
    c.free != [] &&
    var p := c.free[0];
    && Remapped(g, g', e, va, Word(p, perm))
    && p < |m'| && m'[p] == ZeroFrame()
    && p < |c'.pages| && c'.pages[p].ref <= 1
    && p !in b.pinned && forall s | s in g :: g[s].addr != p
  }

  /** Mapping a page just taken from the free list, or giving it back when there is no memory for the table. */
  method InsertTaken(k: Kernel, e: nat, p: nat, va: nat, perm: Flags) returns (rc: int)
    requires k.PageInv(Held({p}, {})) && k.EnvsInv() && e < NENV == |k.envs| && k.envs[e].status != Free
    requires va < UTOP && perm.p && 0 < p < k.boot.npages && NotTable(k.g, k.boot, p) && p !in k.free
    requires p < |k.pages| && k.pages[p].ref == 0
    modifies k`pages, k`pageFreeList, k`mem, k`free, k`tlbs, k`g
    ensures old(k.TlbOk()) ==> k.TlbOk()
    ensures k.PageInv(NOTHING) && k.EnvsInv()
    ensures rc == if Pde(e, PDX(va)) !in old(k.g) && old(k.free) == [] then E_NO_MEM else 0
    ensures rc != 0 ==> k.C() == Pushed(old(k.C()), p) && k.g == old(k.g) && k.mem == old(k.mem)
    ensures rc == 0 ==>
      && Remapped(old(k.g), k.g, e, va, Word(p, perm)) && SameMapped(old(k.g), k.boot, old(k.mem), k.mem)
      && p < |k.mem| && p < |old(k.mem)| && k.mem[p] == old(k.mem)[p] && p < |k.pages| && k.pages[p].ref <= 1
      && Cost(old(k.C()), old(k.g), k.C(), k.g, TableCost(old(k.g), e, va), Some(p))
  {
    hide Inv, EnvInv, Remapped, SameMapped, Coherent, NotTable, Pushed, Cost;
    HeldThenNothing(p);
    AlreadyPresent(perm);
    rc := InsertPage(k, e, p, va, perm, Held({p}, {}));
    if rc == E_NO_MEM {
      StepGiveBack(k.C(), k.g, k.mem, k.boot, Held({p}, {}), p);
      k.PageFree(p);
    }
  }

  lemma AlreadyPresent(perm: Flags)
    requires perm.p
    ensures perm.(p := true) == perm
  {
  }

  /** The part of sys_page_alloc after its checks. */
  method AllocZeroedAt(k: Kernel, e: nat, va: nat, perm: Flags) returns (rc: int)
    requires k.PageInv(NOTHING) && k.EnvsInv() && e < NENV == |k.envs| && k.envs[e].status != Free && va < UTOP
    requires perm.p
    modifies k`pages, k`pageFreeList, k`mem, k`free, k`tlbs, k`g
    ensures old(k.TlbOk()) ==> k.TlbOk()
    ensures k.PageInv(NOTHING) && k.EnvsInv()
    ensures rc == if PageAvailable(old(k.g), |old(k.free)|, e, va) then 0 else E_NO_MEM
    ensures SameMapped(old(k.g), k.boot, old(k.mem), k.mem)
    ensures rc != 0 ==> k.C() == old(k.C()) && k.g == old(k.g)
    ensures rc == 0 ==> ZeroedPageAt(old(k.C()), old(k.g), k.boot, k.C(), k.g, k.mem, e, va, perm)
    ensures rc == 0 ==> Cost(old(k.C()), old(k.g), k.C(), k.g, TableCost(old(k.g), e, va) + 1, None)
  {
    hide Inv, EnvInv, Remapped, SameMapped, Coherent, PageAvailable, ZeroedPageAt, Popped, Pushed, Cost, TableCost;
    SameMappedRefl(k.C(), k.g, k.mem, k.boot, NOTHING);
    Extent(k.C(), k.g, k.mem, k.boot, NOTHING);
    PageNeeded(k.C(), k.g, k.mem, k.boot, e, va);
    var page := k.PageAlloc(true, NOTHING);
    if page == None {
      return E_NO_MEM;
    }
    StepPop(old(k.C()), old(k.g), old(k.mem), k.boot, NOTHING);
    ghost var m1 := k.mem;
    HeldThenNothing(page.value);
    UnreferencedWrite(old(k.g), k.boot, old(k.mem), m1, page.value);
    rc := InsertTaken(k, e, page.value, va, perm);
    if rc == 0 {
      SameMappedTransitive(old(k.g), k.boot, old(k.mem), m1, k.mem);
      ZeroedPage(old(k.C()), old(k.g), k.boot, k.C(), k.g, k.mem, e, va, perm);
      TakenCosts(old(k.C()), old(k.g), k.C(), k.g, TableCost(old(k.g), e, va));
    }
  }

  lemma ZeroedPage(c: Counts, g: Graph, b: Boot, c': Counts, g': Graph, m': seq<Frame>, e: nat, va: nat, perm: Flags)
    requires va < UTOP && c.free != []
    requires var p := c.free[0];
      && Remapped(g, g', e, va, Word(p, perm))
      && p < |m'| && m'[p] == ZeroFrame() && p < |c'.pages| && c'.pages[p].ref <= 1
      && p !in b.pinned && forall s | s in g :: g[s].addr != p
    ensures ZeroedPageAt(c, g, b, c', g', m', e, va, perm)
  {
  }

  /** The page allocated first, and what is left for a table; giving the only free page back changes nothing. */
  lemma PageNeeded(c: Counts, g: Graph, m: seq<Frame>, b: Boot, e: nat, va: nat)
    requires Inv(c, g, m, b, NOTHING) && va < UTOP
    ensures c.free == [] ==> !PageAvailable(g, |c.free|, e, va)
    ensures c.free != [] ==> c.free[0] < |c.pages|
    ensures c.free != [] ==>
      (PageAvailable(g, |c.free|, e, va) <==> Pde(e, PDX(va)) in g || Popped(c).free != [])
    ensures |c.free| == 1 ==> Pushed(Popped(c), c.free[0]) == c
    ensures c.free != [] && Popped(c).free == [] ==> |c.free| == 1
    ensures c.free != [] ==> |Popped(c).pages| == |c.pages| && c.free[0] !in Popped(c).free
    ensures c.free != [] ==> Popped(c).pages[c.free[0]].ref == 0
  {
    Sizes(c, g, m, b, NOTHING);
    if c.free != [] {
      StepPop(c, g, m, b, NOTHING);
      if |c.free| == 1 {
        PopPush(c, g, m, b, NOTHING);
      }
    }
  }

  method SysPageAlloc(k: Kernel, c: nat, envid: int, va: nat, perm: Word) returns (rc: int)
    requires InSyscall(k, c) && va < ADDRESS_LIMIT
    modifies k`pages, k`pageFreeList, k`mem, k`free, k`tlbs, k`g
    ensures old(k.TlbOk()) ==> k.TlbOk()
    ensures InSyscall(k, c)
    ensures var r := Resolve(k.envs, k.cpus[c].env.value, envid, true);
      && rc == (if r == None then E_BAD_ENV
                else if !UserPage(va) || !PermOk(perm) then E_INVAL
                else if PageAvailable(old(k.g), |old(k.free)|, r.value, va) then 0
                else E_NO_MEM)
      && (rc == 0 ==>
            && ZeroedPageAt(old(k.C()), old(k.g), k.boot, k.C(), k.g, k.mem, r.value, va, perm.flags)
            && Cost(old(k.C()), old(k.g), k.C(), k.g, TableCost(old(k.g), r.value, va) + 1, None))
    ensures SameMapped(old(k.g), k.boot, old(k.mem), k.mem)
    ensures rc != 0 ==> k.C() == old(k.C()) && k.g == old(k.g)
  {
    hide Inv, EnvInv, SameMapped, Coherent, PageAvailable, ZeroedPageAt, Cost, TableCost;
    SameMappedRefl(k.C(), k.g, k.mem, k.boot, NOTHING);
    var e := Envid2Env(k, c, envid, true);
    if e == None {
      return E_BAD_ENV;
    }
    if !UserPage(va) || !PermOk(perm) {
      return E_INVAL;
    }
    ResolvedIsLive(k, c, envid, true);
    rc := AllocZeroedAt(k, e.value, va, perm.flags);
  }

  lemma ResolvedIsLive(k: Kernel, c: nat, envid: int, checkperm: bool)
    requires InSyscall(k, c)
    ensures var r := Resolve(k.envs, k.cpus[c].env.value, envid, checkperm);
      r.Some? ==> k.envs[r.value].status != Free
  {
  }

  lemma SameMappedRefl(c: Counts, g: Graph, m: seq<Frame>, b: Boot, h: Held)
    requires Inv(c, g, m, b, h)
    ensures SameMapped(g, b, m, m)
  {
    Sizes(c, g, m, b, h);
  }

  lemma DataIsMapped(c: Counts, g: Graph, m: seq<Frame>, b: Boot, m': seq<Frame>)
    requires Inv(c, g, m, b, NOTHING) && SameData(g, b, m, m')
    ensures SameMapped(g, b, m, m')
  {
    Sizes(c, g, m, b, NOTHING);
  }

  lemma SameMappedTransitive(g: Graph, b: Boot, m: seq<Frame>, m1: seq<Frame>, m2: seq<Frame>)
    requires SameMapped(g, b, m, m1) && SameMapped(g, b, m1, m2)
    ensures SameMapped(g, b, m, m2)
  {
  }

  lemma UnreferencedWrite(g: Graph, b: Boot, m: seq<Frame>, m': seq<Frame>, p: nat)
    requires SameMapped(g, b, m, m) && p < |m| == |m'| && m' == m[p := m'[p]]
    requires p != b.kern && forall s | s in g :: g[s].addr != p
    ensures SameMapped(g, b, m, m')
  {
  }

  /** The page mapped at `va` in environment `e`, if any, can be counted once more, or `t` has it at `dstva` already. */
  ghost predicate RoomToShare(k: Kernel, e: nat, va: nat, t: nat, dstva: nat)
    reads k`g, k`pages, k`pageFreeList, k`free
  {
    va < UTOP && dstva < UTOP && At(e, va) in k.g ==> HasRoomAt(k.C(), k.g, k.g[At(e, va)].addr, At(t, dstva))
  }

  /** What sys_page_map returns, check by check. */
  ghost function PageMapResult(g: Graph, free: nat, src: Option<nat>, srcva: nat, dst: Option<nat>, dstva: nat,
                               perm: Word): Result
    requires srcva < ADDRESS_LIMIT && dstva < ADDRESS_LIMIT
  {
    if src == None || dst == None then Ret(E_BAD_ENV)
    else if !UserPage(srcva) || !UserPage(dstva) || !PermOk(perm) then Ret(E_INVAL)
    else if Pde(src.value, PDX(srcva)) !in g then Ret(E_INVAL)
    else if perm.flags.w && !(At(src.value, srcva) in g && g[At(src.value, srcva)].flags.w) then Ret(E_INVAL)
    else if !TableAvailable(g, free, dst.value, dstva) then Ret(E_NO_MEM)
    else if At(src.value, srcva) !in g then NullPage
    else Ret(0)
  }

  lemma MapNeverPanics(g: Graph, free: nat, src: Option<nat>, srcva: nat, dst: Option<nat>, dstva: nat, perm: Word)
    requires srcva < ADDRESS_LIMIT && dstva < ADDRESS_LIMIT
    ensures !PageMapResult(g, free, src, srcva, dst, dstva, perm).Panic?
  {
  }

  /** What the comment above sys_page_map says it returns. */
  ghost function PageMapDocumented(g: Graph, free: nat, src: Option<nat>, srcva: nat, dst: Option<nat>, dstva: nat,
                                   perm: Word): int
    requires srcva < ADDRESS_LIMIT && dstva < ADDRESS_LIMIT
  {
    if src == None || dst == None then E_BAD_ENV
    else if !UserPage(srcva) || !UserPage(dstva) || !PermOk(perm) then E_INVAL
    else if At(src.value, srcva) !in g then E_INVAL
    else if perm.flags.w && !g[At(src.value, srcva)].flags.w then E_INVAL
    else if !TableAvailable(g, free, dst.value, dstva) then E_NO_MEM
    else 0
  }

  /** sys_page_map does what its comment says except on a read-only request for an unmapped page whose table exists:
      there the code tests the table pointer instead of the page. */
  lemma PageMapMeetsItsComment(g: Graph, free: nat, src: Option<nat>, srcva: nat, dst: Option<nat>, dstva: nat,
                               perm: Word)
    requires srcva < ADDRESS_LIMIT && dstva < ADDRESS_LIMIT
    requires forall e: nat, i: nat, j: nat | Pte(e, i, j) in g :: Pde(e, i) in g
    ensures
      var documented := PageMapDocumented(g, free, src, srcva, dst, dstva, perm);
      PageMapResult(g, free, src, srcva, dst, dstva, perm) == Ret(documented) <==>
        !(src.Some? && dst.Some? && UserPage(srcva) && UserPage(dstva) && PermOk(perm) && !perm.flags.w
          && Pde(src.value, PDX(srcva)) in g && At(src.value, srcva) !in g)
  {
  }

  /** Handing page_insert no page: it makes the table, and then counts through the null pointer. */
  method InsertNull(k: Kernel, e: nat, va: nat) returns (r: Result)
    requires k.PageInv(NOTHING) && k.EnvsInv()
    requires e < NENV == |k.envs| && k.envs[e].status != Free && va < UTOP
    modifies k`pages, k`pageFreeList, k`mem, k`free, k`g
    ensures old(k.TlbOk()) ==> k.TlbOk()
    ensures k.PageInv(NOTHING) && k.EnvsInv()
    ensures r == if TableAvailable(old(k.g), |old(k.free)|, e, va) then NullPage else Ret(E_NO_MEM)
    ensures r.Ret? ==> k.C() == old(k.C()) && k.g == old(k.g) && k.mem == old(k.mem)
  {
    hide Inv, EnvInv, Coherent;
    SlotInUse(k.envs, k.envFreeList, k.envFree, k.allocs, k.g, e);
    var pte := k.PgdirWalkCreate(k.envs[e].pgdir.value, va, Pde(e, PDX(va)), NOTHING);
    DirsSame(k.envs, k.envFreeList, k.envFree, k.allocs, old(k.g), k.g);
    return if pte == None then Ret(E_NO_MEM) else NullPage;
  }

  /** The lookup of a system call in a live environment's user half, in terms of the graph. */
  method LookupPage(k: Kernel, e: nat, va: nat) returns (page: Option<nat>, pte: Option<Loc>)
    requires k.PageInv(NOTHING) && k.EnvsInv()
    requires e < NENV == |k.envs| && k.envs[e].status != Free && va < UTOP
    ensures pte.Some? <==> Pde(e, PDX(va)) in k.g
    ensures page == if At(e, va) in k.g then Some(k.g[At(e, va)].addr) else None
    ensures pte.Some? ==>
      && pte.value.frame < |k.mem| && pte.value.index < NPTENTRIES
      && (k.mem[pte.value.frame][pte.value.index].flags.w <==> At(e, va) in k.g && k.g[At(e, va)].flags.w)
    ensures page.Some? ==>
      && pte.Some? && 0 < page.value < k.boot.npages == |k.pages| && page.value !in k.free
      && NotTable(k.g, k.boot, page.value)
  {
    hide EnvInv, Match;
    SlotInUse(k.envs, k.envFreeList, k.envFree, k.allocs, k.g, e);
    k.WalkFollowsGraph(e, k.envs[e].pgdir.value, va, NOTHING);
    Sizes(k.C(), k.g, k.mem, k.boot, NOTHING);
    page, pte := k.PageLookup(k.envs[e].pgdir.value, va);
  }

  method SysPageMap(k: Kernel, c: nat, srcenvid: int, srcva: nat, dstenvid: int, dstva: nat,
                    perm: Word) returns (r: Result)
    requires InSyscall(k, c) && srcva < ADDRESS_LIMIT && dstva < ADDRESS_LIMIT
    requires
      var cur := k.cpus[c].env.value;
      var src, dst := Resolve(k.envs, cur, srcenvid, true), Resolve(k.envs, cur, dstenvid, true);
      PageMapResult(k.g, |k.free|, src, srcva, dst, dstva, perm) == Ret(0) ==>
        RoomToShare(k, src.value, srcva, dst.value, dstva)
    modifies k`pages, k`pageFreeList, k`mem, k`free, k`tlbs, k`g
    ensures old(k.TlbOk()) ==> k.TlbOk()
    ensures InSyscall(k, c)
    ensures var cur := k.cpus[c].env.value;
      r == PageMapResult(old(k.g), |old(k.free)|, Resolve(k.envs, cur, srcenvid, true), srcva,
                         Resolve(k.envs, cur, dstenvid, true), dstva, perm)
    ensures r.Ret? && r.code != 0 ==> k.C() == old(k.C()) && k.g == old(k.g) && k.mem == old(k.mem)
    ensures r == Ret(0) ==>
      var cur := k.cpus[c].env.value;
      var src, dst := Resolve(k.envs, cur, srcenvid, true).value, Resolve(k.envs, cur, dstenvid, true).value;
      && Remapped(old(k.g), k.g, dst, dstva, Word(old(k.g)[At(src, srcva)].addr, perm.flags))
      && SameMapped(old(k.g), k.boot, old(k.mem), k.mem)
      && Cost(old(k.C()), old(k.g), k.C(), k.g, TableCost(old(k.g), dst, dstva), Some(old(k.g)[At(src, srcva)].addr))
  {
    hide Inv, EnvInv, Remapped, SameMapped, Coherent, Cost, TableCost;
    var source := Envid2Env(k, c, srcenvid, true);
    var destination := Envid2Env(k, c, dstenvid, true);
    if source == None || destination == None {
      return Ret(E_BAD_ENV);
    }
    if !UserPage(srcva) || !UserPage(dstva) || !PermOk(perm) {
      return Ret(E_INVAL);
    }
    ResolvedIsLive(k, c, srcenvid, true);
    ResolvedIsLive(k, c, dstenvid, true);
    var page, pte := LookupPage(k, source.value, srcva);
    if pte == None {
      return Ret(E_INVAL);
    }
    if perm.flags.w && !k.mem[pte.value.frame][pte.value.index].flags.w {
      return Ret(E_INVAL);
    }
    if page == None {
      r := InsertNull(k, destination.value, dstva);
      return;
    }
    HeldThenNothing(page.value);
    var rc := InsertPage(k, destination.value, page.value, dstva, perm.flags, NOTHING);
    AlreadyPresent(perm.flags);
    return Ret(rc);
  }

  method SysPageUnmap(k: Kernel, c: nat, envid: int, va: nat) returns (rc: int)
    requires InSyscall(k, c) && va < ADDRESS_LIMIT
    modifies k`pages, k`pageFreeList, k`mem, k`free, k`tlbs, k`g
    ensures old(k.TlbOk()) ==> k.TlbOk()
    ensures InSyscall(k, c)
    ensures var r := Resolve(k.envs, k.cpus[c].env.value, envid, true);
      && rc == (if r == None then E_BAD_ENV else if !UserPage(va) then E_INVAL else 0)
      && (rc != 0 ==> k.C() == old(k.C()) && k.g == old(k.g) && k.mem == old(k.mem))
      && (rc == 0 ==>
            && Flat(k.g, r.value) == Flat(old(k.g), r.value) - {PGNUM(va)}
            && (forall e': nat | e' != r.value :: Flat(k.g, e') == Flat(old(k.g), e'))
            && SameDirs(old(k.g), k.g)
            && SameMapped(old(k.g), k.boot, old(k.mem), k.mem)
            && Cost(old(k.C()), old(k.g), k.C(), k.g, 0, None))
  {
    hide Inv, EnvInv, Flat, SameMapped, Coherent, Cost, Decremented;
    NoCost(k.C(), k.g);
    var e := Envid2Env(k, c, envid, true);
    if e == None {
      return E_BAD_ENV;
    }
    if !UserPage(va) {
      return E_INVAL;
    }
    ResolvedIsLive(k, c, envid, true);
    SlotInUse(k.envs, k.envFreeList, k.envFree, k.allocs, k.g, e.value);
    RemoveDeletes(k.g, e.value, va);
    Shape(k.C(), k.g, k.mem, k.boot, NOTHING);
    SameMappedRefl(k.C(), k.g, k.mem, k.boot, NOTHING);
    k.PageRemove(k.envs[e.value].pgdir.value, va, e.value, k.C(), NOTHING);
    if At(e.value, va) in old(k.g) {
      RemovalCosts(old(k.C()), old(k.g), At(e.value, va));
      RemoveSparesData(old(k.C()), old(k.g), old(k.mem), k.boot, NOTHING, k.mem, e.value, PDX(va));
    } else {
      assert old(k.g) - {At(e.value, va)} == old(k.g);
    }
    DirsSame(k.envs, k.envFreeList, k.envFree, k.allocs, old(k.g), k.g);
    return 0;
  }

  /** Dropping a page entry costs nothing. */
  lemma RemovalCosts(c: Counts, g: Graph, s: Slot)
    requires s in g && s.Pte? && g[s].addr < |c.pages| && c.pages[g[s].addr].ref > 0
    ensures Cost(c, g, Decremented(c, g[s].addr), g - {s}, 0, None)
  {
  }

  lemma RemoveSparesData(c: Counts, g: Graph, m: seq<Frame>, b: Boot, h: Held, m': seq<Frame>, e: nat, i: nat)
    requires Inv(c, g, m, b, h)
    requires Pde(e, i) in g && g[Pde(e, i)].addr < |m| == |m'| && m' == m[g[Pde(e, i)].addr := m'[g[Pde(e, i)].addr]]
    ensures SameMapped(g, b, m, m')
  {
    Sizes(c, g, m, b, h);
    OtherTablesUntouched(g, b, Pde(e, i));
  }

  /** The child of sys_exofork waits, with its parent's registers and 0 in eax. */
  method InheritRegisters(k: Kernel, cur: nat, e: nat)
    requires k.EnvsInv() && cur < NENV == |k.envs| && e < NENV && k.envs[e].status != Free
    modifies k`envs
    ensures k.EnvsInv()
    ensures k.envs == old(k.envs)[e := old(k.envs)[e].(status := NotRunnable,
                                                      tf := Trapframe(0, old(k.envs)[cur].tf.rest))]
    ensures old(k.TlbOk()) ==> k.TlbOk()
  {
    hide EnvInv, IdAfter, Coherent;
    SlotAligned(k.envs, k.envFreeList, k.envFree, k.allocs, k.g, e);
    k.envs := k.envs[e := k.envs[e].(status := NotRunnable)];
    k.envs := k.envs[e := k.envs[e].(tf := Trapframe(0, k.envs[cur].tf.rest))];
    assert k.envs == old(k.envs)[e := k.envs[e]];
    EnvsKeepCoherence(k.tlbs, k.ThisCpu(), k.cpus, old(k.envs), k.envs, k.g, k.boot, k.mem);
    SlotChanged(old(k.envs), k.envFreeList, k.envFree, k.allocs, k.g, e, k.envs[e]);
  }

  method SysExofork(k: Kernel, c: nat) returns (r: Result)
    requires InSyscall(k, c)
    requires ScreenHasRoom(k)
    modifies k`pages, k`pageFreeList, k`mem, k`free, k`tlbs, k`g, k`envs, k`envFreeList, k`envFree, k`allocs
    ensures old(k.TlbOk()) ==> k.TlbOk()
    ensures r == if old(k.envFree) == [] then Ret(E_NO_FREE_ENV) else if |old(k.free)| == 0 then Ret(E_NO_MEM)
                 else if |old(k.free)| == 1 then Panic
                 else Ret(NextId(old(k.envs)[old(k.envFree)[0]].id, old(k.envFree)[0]))
    ensures !r.Panic? ==> InSyscall(k, c)
    ensures r.Ret? && r.code < 0 ==>
      k.C() == old(k.C()) && k.mem == old(k.mem) && k.g == old(k.g) && k.envs == old(k.envs)
      && k.allocs == old(k.allocs)
    ensures r.Ret? && r.code >= 0 ==>
      var child, cur, d := old(k.envFree)[0], k.cpus[c].env.value, old(k.free)[0];
      && child < |old(k.allocs)| && k.allocs == old(k.allocs)[child := old(k.allocs)[child] + 1]
      && child < NENV && child != cur && Dir(child) !in old(k.g)
      && k.envFree == old(k.envFree)[1..]
      && k.envs == old(k.envs)[child :=
           NewEnv(old(k.envs)[child], child, old(k.envs)[cur].id, d).(status := NotRunnable,
             tf := Trapframe(0, old(k.envs)[cur].tf.rest))]
      && Remapped(old(k.g)[Dir(child) := Word(d, NO_FLAGS)], k.g, child, VGA_USER, Word(VGA_PAGE, VGA_FLAGS))
      && Flat(old(k.g), child) == map[]
      && SameMapped(old(k.g), k.boot, old(k.mem), k.mem)
      && Cost(old(k.C()), old(k.g), k.C(), k.g, 2, Some(VGA_PAGE))
  {
    hide Inv, EnvInv, WithEnv, CountsWithEnv, SameMapped, Remapped, Flat, IdAfter, Coherent, Cost;
    EnvSizes(k.envs, k.envFreeList, k.envFree, k.allocs, k.g);
    var curenv := k.cpus[c].env.value;
    var success, e := EnvAlloc(k, k.envs[curenv].id);
    if success.Panicked? {
      return Panic;
    }
    if success.Failed? {
      return Ret(success.code);
    }
    InheritRegisters(k, curenv, e);
    assert k.envs == old(k.envs)[e := k.envs[e]];
    Sizes(old(k.C()), old(k.g), old(k.mem), k.boot, NOTHING);
    Extent(k.C(), k.g, k.mem, k.boot, NOTHING);
    NewEnvView(old(k.C()), old(k.g), old(k.mem), k.boot, k.mem, e, old(k.free)[0], old(k.free)[1]);
    NewEnvCosts(old(k.C()), old(k.g), old(k.mem), k.boot, e);
    EnvSizes(k.envs, k.envFreeList, k.envFree, k.allocs, k.g);
    NewIdPositive(old(k.envs), old(k.envFreeList), old(k.envFree), old(k.allocs), old(k.g), e);
    return Ret(k.envs[e].id);
  }

  /** A new environment costs a directory and a table; of the pages in use only the screen is counted up. */
  lemma NewEnvCosts(c: Counts, g: Graph, m: seq<Frame>, b: Boot, e: nat)
    requires Inv(c, g, m, b, NOTHING) && |c.free| >= 2
    ensures c.free[0] < |c.pages| && c.free[1] < |c.pages| && VGA_PAGE < |c.pages|
    ensures Cost(c, g, CountsWithEnv(c), WithEnv(g, e, c.free[0], c.free[1]), 2, Some(VGA_PAGE))
  {
    hide Inv;
    Sizes(c, g, m, b, NOTHING);
    assert c.free[0] in c.free && c.free[1] in c.free;
    ScreenIsData(c, g, m, b, NOTHING);
  }

  lemma NewIdPositive(envs: seq<Env>, head: Option<nat>, list: seq<nat>, allocs: seq<nat>, g: Graph, e: nat)
    requires EnvInv(envs, head, list, allocs, g) && e < NENV
    ensures NextId(envs[e].id, e) > 0
  {
    IdClosedForm(allocs[e] + 1, e);
    NextIdIsLater(allocs[e], e);
  }

  /** A new environment sees the screen at VGA_USER and nothing else; nobody sees any change. */
  lemma NewEnvView(c: Counts, g: Graph, m: seq<Frame>, b: Boot, m': seq<Frame>, e: nat, d: nat, t: nat)
    requires Inv(c, g, m, b, NOTHING) && Dir(e) !in g
    requires |c.free| >= 2 && c.free[0] == d && c.free[1] == t && |m'| == |m|
    requires forall p | 0 <= p < b.npages && p != d && p != t :: m'[p] == m[p]
    ensures Remapped(g[Dir(e) := Word(d, NO_FLAGS)], WithEnv(g, e, d, t), e, VGA_USER, Word(VGA_PAGE, VGA_FLAGS))
    ensures Flat(g, e) == map[]
    ensures SameMapped(g, b, m, m')
  {
    NewEnvKeepsData(c, g, m, b, m', d, t);
    NewTableRemaps(g[Dir(e) := Word(d, NO_FLAGS)], g[Dir(e) := Word(d, NO_FLAGS)][Pde(e, VGA_SLOT_I) := Word(t, PWU)],
                   e, t);
    hide Inv, SameMapped, Remapped;
    NoDirNoEntries(c, g, m, b, NOTHING, e);
  }

  /** Writes to two free pages. */
  lemma NewEnvKeepsData(c: Counts, g: Graph, m: seq<Frame>, b: Boot, m': seq<Frame>, d: nat, t: nat)
    requires Inv(c, g, m, b, NOTHING) && |m'| == |m| && d in c.free && t in c.free
    requires forall p | 0 <= p < b.npages && p != d && p != t :: m'[p] == m[p]
    ensures SameMapped(g, b, m, m')
  {
    hide Match, RefsCounted, Chain;
    Sizes(c, g, m, b, NOTHING);
  }

  lemma NewTableRemaps(g: Graph, g': Graph, e: nat, t: nat)
    requires g' == g[Pde(e, VGA_SLOT_I) := Word(t, PWU)]
    ensures Remapped(g, g'[Pte(e, VGA_SLOT_I, VGA_SLOT_J) := Word(VGA_PAGE, VGA_FLAGS)], e, VGA_USER,
                     Word(VGA_PAGE, VGA_FLAGS))
  {
    hide Flat;
    VgaIndexes();
    SamePages(g, g');
    InsertUpdates(g', e, VGA_USER, Word(VGA_PAGE, VGA_FLAGS));
  }

  /** What sys_env_set_status accepts is ENV_RUNNABLE or ENV_NOT_RUNNABLE. */
  method SysEnvSetStatus(k: Kernel, c: nat, envid: int, status: Status) returns (rc: int)
    requires InSyscall(k, c)
    modifies k`envs
    ensures old(k.TlbOk()) ==> k.TlbOk()
    ensures InSyscall(k, c)
    ensures var r := Resolve(old(k.envs), k.cpus[c].env.value, envid, true);
      && rc == (if status != Runnable && status != NotRunnable then E_INVAL else if r == None then E_BAD_ENV else 0)
      && k.envs == if rc == 0 then old(k.envs)[r.value := old(k.envs)[r.value].(status := status)] else old(k.envs)
  {
    hide Inv, EnvInv, Coherent;
    if status != Runnable && status != NotRunnable {
      return E_INVAL;
    }
    var e := Envid2Env(k, c, envid, true);
    if e == None {
      return E_BAD_ENV;
    }
    ResolvedIsLive(k, c, envid, true);
    EnvSizes(k.envs, k.envFreeList, k.envFree, k.allocs, k.g);
    k.envs := k.envs[e.value := k.envs[e.value].(status := status)];
    EnvsKeepCoherence(k.tlbs, k.ThisCpu(), k.cpus, old(k.envs), k.envs, k.g, k.boot, k.mem);
    SlotChanged(old(k.envs), k.envFreeList, k.envFree, k.allocs, k.g, e.value, k.envs[e.value]);
    return 0;
  }

  /** What sys_ipc_try_send refuses in a page to send. */
  ghost predicate SendRefused(g: Graph, cur: nat, srcva: nat, perm: Word)
    requires srcva < UTOP
  {
    || srcva % PGSIZE != 0 || Pde(cur, PDX(srcva)) !in g
    || (perm.flags.w && !(At(cur, srcva) in g && g[At(cur, srcva)].flags.w))
    || !(perm.flags.u || perm.flags.p)
    || !(perm.addr == 0 && OnlySyscallBits(perm.flags))
  }

  /** What the comment above sys_ipc_try_send says it refuses. */
  ghost predicate SendInvalid(g: Graph, cur: nat, srcva: nat, perm: Word)
    requires srcva < UTOP
  {
    || srcva % PGSIZE != 0 || !PermOk(perm) || At(cur, srcva) !in g
    || (perm.flags.w && !g[At(cur, srcva)].flags.w)
  }

  /** How handing a page from `cur` to `t` ends, check by check. */
  ghost function TransferResult(g: Graph, free: nat, cur: nat, t: nat, srcva: nat, dstva: nat, perm: Word): Result
    requires srcva < UTOP && dstva < UTOP
  {
    if SendRefused(g, cur, srcva, perm) then Ret(E_INVAL)
    else if !TableAvailable(g, free, t, dstva) then Ret(E_NO_MEM)
    else if At(cur, srcva) !in g then NullPage
    else Ret(0)
  }

  lemma TransferCodes(g: Graph, free: nat, cur: nat, t: nat, srcva: nat, dstva: nat, perm: Word)
    requires srcva < UTOP && dstva < UTOP
    ensures var r := TransferResult(g, free, cur, t, srcva, dstva, perm);
      r == NullPage || r == Ret(0) || r == Ret(E_INVAL) || r == Ret(E_NO_MEM)
  {
  }

  lemma SameGraphHandedOver(g: Graph, cur: nat, srcva: nat, perm: Word)
    ensures forall t: nat, dstva: nat {:trigger HandedOver(g, g, cur, t, srcva, dstva, perm)} |
      !SendsPage(srcva, dstva) :: HandedOver(g, g, cur, t, srcva, dstva, perm)
  {
  }

  /** What sys_ipc_try_send returns; `cur` is the sender. */
  ghost function TrySendResult(g: Graph, free: nat, envs: seq<Env>, cur: nat, target: Option<nat>, srcva: nat,
                               perm: Word): Result
    requires |envs| == NENV && (target.Some? ==> target.value < NENV)
  {
    if target == None then Ret(E_BAD_ENV)
    else if !envs[target.value].recving then Ret(E_IPC_NOT_RECV)
    else
      var dstva := envs[target.value].dstva;
      if SendsPage(srcva, dstva) then TransferResult(g, free, cur, target.value, srcva, dstva, perm) else Ret(0)
  }

  lemma SendNeverPanics(g: Graph, free: nat, envs: seq<Env>, cur: nat, target: Option<nat>, srcva: nat, perm: Word)
    requires |envs| == NENV && (target.Some? ==> target.value < NENV)
    ensures !TrySendResult(g, free, envs, cur, target, srcva, perm).Panic?
  {
  }

  /** Whether a successful send also hands over a page. */
  predicate SendsPage(srcva: nat, dstva: nat) {
    srcva < UTOP && dstva < UTOP
  }

  /** What the comment above sys_ipc_try_send says it returns. */
  ghost function TrySendDocumented(g: Graph, free: nat, envs: seq<Env>, cur: nat, target: Option<nat>, srcva: nat,
                                   perm: Word): int
    requires |envs| == NENV && (target.Some? ==> target.value < NENV)
  {
    if target == None then E_BAD_ENV
    else if !envs[target.value].recving then E_IPC_NOT_RECV
    else if srcva < UTOP && SendInvalid(g, cur, srcva, perm) then E_INVAL
    else
      var dstva := envs[target.value].dstva;
      if SendsPage(srcva, dstva) && !TableAvailable(g, free, target.value, dstva) then E_NO_MEM else 0
  }

  /** What sys_ipc_try_send lets through of what its comment says it refuses: an aligned address whose table exists,
      with permission bits the code accepts, where only one of PTE_U and PTE_P is set or nothing is mapped. */
  ghost predicate SlipsThrough(g: Graph, cur: nat, srcva: nat, perm: Word)
    requires srcva < UTOP
  {
    && srcva % PGSIZE == 0 && Pde(cur, PDX(srcva)) in g
    && perm.addr == 0 && OnlySyscallBits(perm.flags)
    && (perm.flags.w ==> At(cur, srcva) in g && g[At(cur, srcva)].flags.w)
    && (perm.flags.u != perm.flags.p || (perm.flags.u && At(cur, srcva) !in g))
  }

  /** sys_ipc_try_send does what its comment says except, with a page argument below UTOP and a target that waits: when
      the target wants no page, with any argument the comment refuses, because then nothing is checked; and when it
      wants one, with exactly the arguments that slip through the checks. */
  lemma TrySendMeetsItsComment(g: Graph, free: nat, envs: seq<Env>, cur: nat, target: Option<nat>, srcva: nat,
                               perm: Word)
    requires |envs| == NENV && (target.Some? ==> target.value < NENV)
    requires forall e: nat, i: nat, j: nat | Pte(e, i, j) in g :: Pde(e, i) in g
    ensures
      var documented := TrySendDocumented(g, free, envs, cur, target, srcva, perm);
      TrySendResult(g, free, envs, cur, target, srcva, perm) == Ret(documented) <==>
        !(target.Some? && envs[target.value].recving && srcva < UTOP
          && if envs[target.value].dstva >= UTOP then SendInvalid(g, cur, srcva, perm)
             else SlipsThrough(g, cur, srcva, perm))
  {
    if srcva < UTOP {
      assert SlipsThrough(g, cur, srcva, perm) <==>
        SendInvalid(g, cur, srcva, perm) && !SendRefused(g, cur, srcva, perm);
      assert SendRefused(g, cur, srcva, perm) ==> SendInvalid(g, cur, srcva, perm);
    }
  }

  /** A read-only page, as an argument of sys_ipc_try_send or sys_page_map. */
  const READ_ONLY := Word(0, PU)

  /** Every environment that env_alloc has just made in slot `e` can send the kernel into page_insert(NULL) by sharing
      its unmapped page UTEMP, whose table it has because of the screen next to it; the comment promises -E_INVAL. */
  lemma NewEnvCanMapNull(c: Counts, g: Graph, m: seq<Frame>, b: Boot, free: nat, e: nat, d: nat, t: nat)
    requires Inv(c, g, m, b, NOTHING) && Dir(e) !in g
    ensures PageMapResult(WithEnv(g, e, d, t), free, Some(e), UTEMP, Some(e), UTEMP, READ_ONLY) == NullPage
    ensures PageMapDocumented(WithEnv(g, e, d, t), free, Some(e), UTEMP, Some(e), UTEMP, READ_ONLY) == E_INVAL
  {
    NoDirNoEntries(c, g, m, b, NOTHING, e);
  }

  /** The same environment gets past every check that the comment above sys_ipc_try_send promises: with anything at all
      if the receiver `r` wants no page, else with only one of PTE_U and PTE_P, or with the unmapped page. */
  lemma NewEnvCanSlipThrough(c: Counts, g: Graph, m: seq<Frame>, b: Boot, free: nat, envs: seq<Env>, e: nat, d: nat,
                             t: nat, r: nat, perm: Word)
    requires Inv(c, g, m, b, NOTHING) && Dir(e) !in g
    requires |envs| == NENV && r < NENV && envs[r].recving
    ensures var g' := WithEnv(g, e, d, t);
      if envs[r].dstva >= UTOP then
        && TrySendResult(g', free, envs, e, Some(r), UTEMP, perm) == Ret(0)
        && TrySendDocumented(g', free, envs, e, Some(r), UTEMP, perm) == E_INVAL
      else
        && TrySendDocumented(g', free, envs, e, Some(r), VGA_USER, Word(0, PU.(p := false))) == E_INVAL
        && TrySendDocumented(g', free, envs, e, Some(r), UTEMP, READ_ONLY) == E_INVAL
        && (TableAvailable(g', free, r, envs[r].dstva) ==>
              && TrySendResult(g', free, envs, e, Some(r), VGA_USER, Word(0, PU.(p := false))) == Ret(0)
              && TrySendResult(g', free, envs, e, Some(r), UTEMP, READ_ONLY) == NullPage)
  {
    hide Inv;
    NewEnvEntries(c, g, m, b, e, d, t);
    var g', dstva := WithEnv(g, e, d, t), envs[r].dstva;
    hide WithEnv;
    if dstva < UTOP {
      assert TransferResult(g', free, e, r, VGA_USER, dstva, Word(0, PU.(p := false))) ==
             if TableAvailable(g', free, r, dstva) then Ret(0) else Ret(E_NO_MEM);
    }
  }

  /** What the directory of a new environment holds around UTEMP. */
  lemma NewEnvEntries(c: Counts, g: Graph, m: seq<Frame>, b: Boot, e: nat, d: nat, t: nat)
    requires Inv(c, g, m, b, NOTHING) && Dir(e) !in g
    ensures var g' := WithEnv(g, e, d, t);
      && PDX(UTEMP) == PDX(VGA_USER) && Pde(e, PDX(UTEMP)) in g' && At(e, UTEMP) !in g' && At(e, VGA_USER) in g'
  {
    hide Inv;
    NoDirNoEntries(c, g, m, b, NOTHING, e);
    VgaIndexes();
  }

  /** The receiver after a successful send. */
  function Delivered(v: Env, value: nat, from: int, perm: Flags): Env {
    v.(recving := false, from := from, value := value, tf := v.tf.(eax := 0), status := Runnable, perm := perm)
  }

  /** A send that got as far as a receiving target has cleared its env_ipc_perm, even if it fails then. */
  function EnvsAfterFailedSend(envs: seq<Env>, target: Option<nat>, code: int): seq<Env>
    requires target.Some? ==> target.value < |envs|
  {
    if target == None || code == E_IPC_NOT_RECV then envs
    else envs[target.value := envs[target.value].(perm := NO_FLAGS)]
  }

  function EnvsAfterSend(envs: seq<Env>, cur: nat, t: nat, value: nat, srcva: nat, perm: Word): seq<Env>
    requires cur < |envs| && t < |envs|
  {
    envs[t := Delivered(envs[t], value, envs[cur].id, if SendsPage(srcva, envs[t].dstva) then perm.flags else NO_FLAGS)]
  }

  /** After a send without errors: the sender's page is mapped at the receiver's address too, or no page was handed
      over. */
  ghost predicate HandedOver(g: Graph, g': Graph, cur: nat, t: nat, srcva: nat, dstva: nat, perm: Word) {
    if SendsPage(srcva, dstva) then
      At(cur, srcva) in g && Remapped(g, g', t, dstva, Word(g[At(cur, srcva)].addr, perm.flags.(p := true)))
    else g' == g
  }

  /** The part of sys_ipc_try_send that maps the sender's page at the receiver. */
  method TransferPage(k: Kernel, cur: nat, t: nat, srcva: nat, dstva: nat, perm: Word) returns (r: Result)
    requires k.PageInv(NOTHING) && k.EnvsInv() && cur < NENV == |k.envs| && t < NENV
    requires k.envs[cur].status != Free && k.envs[t].status != Free
    requires srcva < UTOP && dstva < UTOP
    requires TransferResult(k.g, |k.free|, cur, t, srcva, dstva, perm) == Ret(0) ==>
      RoomToShare(k, cur, srcva, t, dstva)
    modifies k`pages, k`pageFreeList, k`mem, k`free, k`tlbs, k`g
    ensures old(k.TlbOk()) ==> k.TlbOk()
    ensures k.PageInv(NOTHING) && k.EnvsInv()
    ensures r == TransferResult(old(k.g), |old(k.free)|, cur, t, srcva, dstva, perm)
    ensures r.Ret? && r.code != 0 ==> k.C() == old(k.C()) && k.g == old(k.g) && k.mem == old(k.mem)
    ensures r == Ret(0) ==>
      HandedOver(old(k.g), k.g, cur, t, srcva, dstva, perm) && SameMapped(old(k.g), k.boot, old(k.mem), k.mem)
  {
    hide Inv, EnvInv, Remapped, SameMapped, Coherent;
    var page, pte := LookupPage(k, cur, srcva);
    if srcva % PGSIZE != 0 || pte == None
       || (perm.flags.w && !k.mem[pte.value.frame][pte.value.index].flags.w)
       || !(perm.flags.u || perm.flags.p)
       || !(perm.addr == 0 && OnlySyscallBits(perm.flags)) {
      return Ret(E_INVAL);
    }
    if page == None {
      r := InsertNull(k, t, dstva);
      return;
    }
    HeldThenNothing(page.value);
    var rc := InsertPage(k, t, page.value, dstva, perm.flags, NOTHING);
    return Ret(rc);
  }

  /** Writing env_ipc_perm. */
  method SetPerm(k: Kernel, t: nat, perm: Flags)
    requires k.EnvsInv() && t < NENV == |k.envs| && k.envs[t].status != Free
    modifies k`envs
    ensures k.EnvsInv() && k.envs == old(k.envs)[t := old(k.envs)[t].(perm := perm)]
    ensures old(k.TlbOk()) ==> k.TlbOk()
  {
    hide EnvInv, Coherent, IdAfter;
    SlotAligned(k.envs, k.envFreeList, k.envFree, k.allocs, k.g, t);
    k.envs := k.envs[t := k.envs[t].(perm := perm)];
    EnvsKeepCoherence(k.tlbs, k.ThisCpu(), k.cpus, old(k.envs), k.envs, k.g, k.boot, k.mem);
    SlotChanged(old(k.envs), k.envFreeList, k.envFree, k.allocs, k.g, t, k.envs[t]);
  }

  /** The end of a successful send: the receiver is woken with the message in its fields and 0 in eax. */
  method Deliver(k: Kernel, cur: nat, t: nat, value: nat)
    requires k.EnvsInv() && cur < NENV == |k.envs| && t < NENV && k.envs[t].status != Free
    modifies k`envs
    ensures k.EnvsInv()
    ensures k.envs == old(k.envs)[t := Delivered(old(k.envs)[t], value, old(k.envs)[cur].id, old(k.envs)[t].perm)]
    ensures old(k.TlbOk()) ==> k.TlbOk()
  {
    hide EnvInv, Coherent, IdAfter;
    k.envs := k.envs[t := k.envs[t].(recving := false, from := k.envs[cur].id, value := value,
                                     tf := k.envs[t].tf.(eax := 0), status := Runnable)];
    EnvsKeepCoherence(k.tlbs, k.ThisCpu(), k.cpus, old(k.envs), k.envs, k.g, k.boot, k.mem);
    SlotChanged(old(k.envs), k.envFreeList, k.envFree, k.allocs, k.g, t, k.envs[t]);
  }

  /** If the send hands over a page, that page can be counted once more, or the target has it there already. */
  ghost predicate RoomToSend(k: Kernel, cur: nat, target: Option<nat>, srcva: nat, perm: Word)
    requires |k.envs| == NENV && (target.Some? ==> target.value < NENV)
    reads k
  {
    target.Some? && k.envs[target.value].recving && SendsPage(srcva, k.envs[target.value].dstva)
      && TransferResult(k.g, |k.free|, cur, target.value, srcva, k.envs[target.value].dstva, perm) == Ret(0) ==>
        RoomToShare(k, cur, srcva, target.value, k.envs[target.value].dstva)
  }

  method SysIpcTrySend(k: Kernel, c: nat, envid: int, value: nat, srcva: nat, perm: Word) returns (r: Result)
    requires InSyscall(k, c) && srcva < ADDRESS_LIMIT
    requires RoomToSend(k, k.cpus[c].env.value, Resolve(k.envs, k.cpus[c].env.value, envid, false), srcva, perm)
    modifies k`pages, k`pageFreeList, k`mem, k`free, k`tlbs, k`g, k`envs
    ensures old(k.TlbOk()) ==> k.TlbOk()
    ensures InSyscall(k, c)
    ensures var cur := k.cpus[c].env.value; var t := Resolve(old(k.envs), cur, envid, false);
      && r == TrySendResult(old(k.g), |old(k.free)|, old(k.envs), cur, t, srcva, perm)
      && (r.Ret? && r.code != 0 ==>
            && k.C() == old(k.C()) && k.g == old(k.g) && k.mem == old(k.mem)
            && k.envs == EnvsAfterFailedSend(old(k.envs), t, r.code))
      && (r == Ret(0) ==>
            && k.envs == EnvsAfterSend(old(k.envs), cur, t.value, value, srcva, perm)
            && HandedOver(old(k.g), k.g, cur, t.value, srcva, old(k.envs)[t.value].dstva, perm)
            && SameMapped(old(k.g), k.boot, old(k.mem), k.mem))
  {
    hide Inv, EnvInv, SameMapped, IdAfter, TransferResult, HandedOver, Remapped, Coherent;
    SameGraphHandedOver(k.g, k.cpus[c].env.value, srcva, perm);
    var target := Envid2Env(k, c, envid, false);
    if target == None {
      return Ret(E_BAD_ENV);
    }
    var t, curenv := target.value, k.cpus[c].env.value;
    if !k.envs[t].recving {
      return Ret(E_IPC_NOT_RECV);
    }
    ResolvedIsLive(k, c, envid, false);
    EnvSizes(k.envs, k.envFreeList, k.envFree, k.allocs, k.g);
    SameMappedRefl(k.C(), k.g, k.mem, k.boot, NOTHING);
    SetPerm(k, t, NO_FLAGS);
    var dstva := k.envs[t].dstva;
    if srcva < UTOP && dstva < UTOP {
      TransferCodes(k.g, |k.free|, curenv, t, srcva, dstva, perm);
      r := TransferPage(k, curenv, t, srcva, dstva, perm);
      if r != Ret(0) {
        return;
      }
      SetPerm(k, t, perm.flags);
    }
    Deliver(k, curenv, t, value);
    assert k.envs == old(k.envs)[t := k.envs[t]];
    return Ret(0);
  }
}

/** Boot: page_init and mem_init (kern/pmap.c), env_init, region_alloc and env_create (kern/env.c), and i386_init
    (kern/init.c). */
module BootTime {
  import opened Layout
  import opened Graph
  import opened PageState
  import opened Tables
  import opened Steps
  import opened EnvId
  import opened EnvState
  import opened Pmap
  import opened EnvOps
  import opened Sched
  import opened EnvTheorems
  import opened AddressSpace
  import opened Tlb
  import opened Syscall
  import opened KernelView
  import opened RunState
  import opened Ipc
  import opened Run
  import opened Traps
  import opened BootMap
  import opened KernelMap

  /** PGNUM(IOPHYSMEM), PGNUM(EXTPHYSMEM) and PGNUM(MPENTRY_PADDR). */
  const IO_PAGE := 0xA0
  const EXT_PAGE := 0x100
  const MPENTRY_PAGE := 7

  /** The pages page_init never gives away: the I/O hole, the kernel and what boot_alloc has handed out up to
      `kernEnd`, and the entry code of the other CPUs. */
  predicate Reserved(p: nat, kernEnd: nat) {
    IO_PAGE <= p < kernEnd || p == MPENTRY_PAGE
  }

  function Pinned(npages: nat, kernEnd: nat): set<nat> {
    set p: nat | 1 <= p < npages && Reserved(p, kernEnd)
  }

  /** Memory before page_init: `kern` is the page boot_alloc gave to kern_pgdir, `kernEnd` the first page after the
      last one handed out. */
  ghost predicate BootMemory(b: Boot, m: seq<Frame>, kernEnd: nat) {
    && EXT_PAGE <= b.kern < kernEnd <= b.npages <= 0x100000 && |m| == b.npages
    && b.pinned == Pinned(b.npages, kernEnd) && m[b.kern] == EmptyDirectory(b.kern)
  }

  ghost predicate Descending(s: seq<nat>) {
    forall k, l | 0 <= k < l < |s| :: s[k] > s[l]
  }

  /** The free list after the pages below `n` have been looked at. */
  ghost predicate Collected(pages: seq<PageInfo>, head: Option<nat>, free: seq<nat>, b: Boot, n: nat)
    requires |pages| == b.npages
  {
    && Chain(pages, head, free) && Descending(free)
    && (forall p | 0 <= p < b.npages :: p in free <==> 1 <= p < n && p !in b.pinned)
    && (forall p | p in free :: p < b.npages && p < n)
    && (forall p | 0 <= p < b.npages && p !in free ::
          pages[p] == PageInfo(None, if p < n && p in b.pinned then 1 else 0))
    && (forall p | 0 <= p < b.npages :: pages[p].ref == if p < n && p in b.pinned then 1 else 0)
  }

  /** One page that is free goes in front of the list; one that is reserved is counted once. */
  lemma CollectedStep(pages: seq<PageInfo>, head: Option<nat>, free: seq<nat>, b: Boot, n: nat)
    requires |pages| == b.npages && Collected(pages, head, free, b, n) && 1 <= n < b.npages
    ensures n in b.pinned ==> Collected(pages[n := PageInfo(None, 1)], head, free, b, n + 1)
    ensures n !in b.pinned ==> Collected(pages[n := PageInfo(head, 0)], Some(n), [n] + free, b, n + 1)
  {
    assert n !in free;
    if n in b.pinned {
      ChainFrame(pages, pages[n := PageInfo(None, 1)], head, free);
    } else {
      ChainFrame(pages, pages[n := PageInfo(head, 0)], head, free);
      PushedInFront(free, n);
    }
  }

  lemma PushedInFront(free: seq<nat>, n: nat)
    requires Descending(free) && forall p | p in free :: p < n
    ensures Descending([n] + free) && forall p :: p in [n] + free <==> p == n || p in free
  {
    forall k, l | 0 <= k < l < |[n] + free| ensures ([n] + free)[k] > ([n] + free)[l] {
      assert free[l - 1] in free;
    }
  }

  /** How many pages from page 1 to below `n` are not reserved. */
  function FreeBelow(n: nat, kernEnd: nat): nat {
    if n <= 1 then 0 else FreeBelow(n - 1, kernEnd) + if Reserved(n - 1, kernEnd) then 0 else 1
  }

  lemma NoneBelow(kernEnd: nat)
    ensures FreeBelow(1, kernEnd) == 0
  {
  }

  lemma OneMoreBelow(n: nat, kernEnd: nat)
    requires n >= 1
    ensures FreeBelow(n + 1, kernEnd) == FreeBelow(n, kernEnd) + if Reserved(n, kernEnd) then 0 else 1
  {
  }

  /** Below the I/O hole all pages but page 0 and that of the CPU entry code, and the memory after the kernel. */
  lemma {:induction false} FreeBelowClosed(n: nat, kernEnd: nat)
    requires kernEnd >= EXT_PAGE && n >= 1
    ensures FreeBelow(n, kernEnd) ==
      if n <= MPENTRY_PAGE then n - 1 else if n <= IO_PAGE then n - 2 else if n <= kernEnd then IO_PAGE - 2
      else IO_PAGE - 2 + n - kernEnd
  {
    if n > 1 {
      FreeBelowClosed(n - 1, kernEnd);
    }
  }

  method PageInit(k: Kernel, kernEnd: nat)
    requires BootMemory(k.boot, k.mem, kernEnd) && k.g == map[]
    requires k.pages == seq(k.boot.npages, _ => PageInfo(None, 0)) && k.pageFreeList == None && k.free == []
    modifies k`pages, k`pageFreeList, k`free
    ensures k.PageInv(NOTHING) && Descending(k.free) && |k.free| == FreeBelow(k.boot.npages, kernEnd)
    ensures |k.pages| == k.boot.npages
    ensures forall p | 0 <= p < k.boot.npages ::
      && (p in k.free <==> 1 <= p && p != 7 && (p < 0xA0 || p >= kernEnd))
      && k.pages[p].ref == if p == 0 || p in k.free then 0 else 1
  {
    hide Collected, FreeBelow;
    NoneBelow(kernEnd);
    assert Collected(k.pages, k.pageFreeList, k.free, k.boot, 1) by { StartCollected(k.pages, k.boot); }
    for i := 1 to |k.pages|
      invariant |k.pages| == k.boot.npages && Collected(k.pages, k.pageFreeList, k.free, k.boot, i)
      invariant |k.free| == FreeBelow(i, kernEnd)
    {
      OneMoreBelow(i, kernEnd);
      CollectedStep(k.pages, k.pageFreeList, k.free, k.boot, i);
      Untouched(k.pages, k.pageFreeList, k.free, k.boot, i);
      ghost var pages := k.pages;
      assert i in k.boot.pinned <==> Reserved(i, kernEnd);
      if Reserved(i, kernEnd) {
        k.pages := k.pages[i := k.pages[i].(ref := 1)];
      } else {
        k.pages := k.pages[i := k.pages[i].(ref := 0)];
        k.pages := k.pages[i := k.pages[i].(link := k.pageFreeList)];
        assert k.pages == pages[i := PageInfo(k.pageFreeList, 0)];
        k.pageFreeList := Some(i);
        k.free := [i] + k.free;
      }
    }
    AllCollected(k.C(), k.boot, k.mem, kernEnd);
  }

  lemma StartCollected(pages: seq<PageInfo>, b: Boot)
    requires pages == seq(b.npages, _ => PageInfo(None, 0)) && 0 !in b.pinned
    ensures Collected(pages, None, [], b, 1)
  {
  }

  lemma Untouched(pages: seq<PageInfo>, head: Option<nat>, free: seq<nat>, b: Boot, n: nat)
    requires |pages| == b.npages && Collected(pages, head, free, b, n) && n < b.npages
    ensures pages[n] == PageInfo(None, 0)
  {
  }

  lemma AllCollected(c: Counts, b: Boot, m: seq<Frame>, kernEnd: nat)
    requires |c.pages| == b.npages && Collected(c.pages, c.head, c.free, b, b.npages) && BootMemory(b, m, kernEnd)
    ensures Inv(c, map[], m, b, NOTHING) && Descending(c.free)
    ensures forall p | 0 <= p < b.npages ::
      && (p in c.free <==> 1 <= p && p != 7 && (p < 0xA0 || p >= kernEnd))
      && c.pages[p].ref == if p == 0 || p in c.free then 0 else 1
  {
    forall p: nat ensures Refs(map[], p) == {} {
    }
  }

  /** Slots e, e + 1, ..., NENV - 1. */
  function SlotsFrom(e: nat): (s: seq<nat>)
    requires e <= NENV
    ensures |s| == NENV - e && forall k | 0 <= k < |s| :: s[k] == e + k
  {
    seq(NENV - e, k requires 0 <= k => e + k)
  }

  /** Linking each slot to the next makes a chain through all of them. */
  lemma {:induction false} LinkedSlots(envs: seq<Env>, e: nat)
    requires |envs| == NENV && e <= NENV
    requires forall k | 0 <= k < NENV :: envs[k].link == if k + 1 < NENV then Some(k + 1) else None
    ensures EnvChain(envs, if e < NENV then Some(e) else None, SlotsFrom(e))
    decreases NENV - e
  {
    if e < NENV {
      LinkedSlots(envs, e + 1);
      assert SlotsFrom(e)[1..] == SlotsFrom(e + 1);
    }
  }

  /** env_init: every slot is free, and the first env_alloc will return slot 0. */
  method EnvInit(k: Kernel)
    requires k.envs == seq(NENV, _ => NO_ENV) && k.allocs == seq(NENV, _ => 0) && forall e: nat :: Dir(e) !in k.g
    modifies k`envs, k`envFreeList, k`envFree
    ensures k.EnvsInv() && k.envFree == SlotsFrom(0)
    ensures |k.envs| == NENV && forall e | 0 <= e < NENV :: k.envs[e].status == Free && k.envs[e].id == 0
  {
    for i := 0 to NENV - 1
      invariant |k.envs| == NENV
      invariant forall j | 0 <= j < NENV :: k.envs[j] == NO_ENV.(link := if j < i then Some(j + 1) else None)
    {
      ghost var envs := k.envs;
      k.envs := k.envs[i := k.envs[i].(status := Free)];
      k.envs := k.envs[i := k.envs[i].(id := 0)];
      k.envs := k.envs[i := k.envs[i].(link := Some(i + 1))];
      assert k.envs == envs[i := NO_ENV.(link := Some(i + 1))];
    }
    ghost var envs := k.envs;
    k.envs := k.envs[NENV - 1 := k.envs[NENV - 1].(status := Free)];
    k.envs := k.envs[NENV - 1 := k.envs[NENV - 1].(id := 0)];
    assert k.envs == envs;
    k.envFreeList := Some(0);
    k.envFree := SlotsFrom(0);
    AllSlotsFree(k.envs, k.allocs, k.g);
  }

  lemma AllSlotsFree(envs: seq<Env>, allocs: seq<nat>, g: Graph)
    requires |envs| == NENV && allocs == seq(NENV, _ => 0) && forall e: nat :: Dir(e) !in g
    requires forall j | 0 <= j < NENV :: envs[j] == NO_ENV.(link := if j < NENV - 1 then Some(j + 1) else None)
    ensures EnvInv(envs, Some(0), SlotsFrom(0), allocs, g)
  {
    LinkedSlots(envs, 0);
    forall e | 0 <= e < NENV ensures e in SlotsFrom(0) {
      assert SlotsFrom(0)[e] == e;
    }
  }

  /** Environment `e` has pages of its own at the page numbers in [lo, hi); everything else is as before. */
  ghost predicate RegionMapped(g0: Graph, g: Graph, e: nat, lo: nat, hi: nat) {
    && (forall v: nat | lo <= v < hi :: Private(g, e, v) && Flat(g, e)[v].flags == PWU)
    && (forall v: nat | !(lo <= v < hi) ::
          (v in Flat(g, e) <==> v in Flat(g0, e)) && (v in Flat(g, e) ==> Flat(g, e)[v] == Flat(g0, e)[v]))
    && (forall e': nat | e' != e :: Flat(g, e') == Flat(g0, e'))
    && SameDirs(g0, g)
  }

  lemma RegionStep(g0: Graph, g: Graph, g': Graph, e: nat, lo: nat, va: nat, p: nat)
    requires RegionMapped(g0, g, e, lo, PGNUM(va)) && va < UTOP && lo <= PGNUM(va)
    requires Remapped(g, g', e, va, Word(p, PWU)) && forall s | s in g :: g[s].addr != p
    ensures RegionMapped(g0, g', e, lo, PGNUM(va) + 1)
  {
    hide Flat, Private;
    NobodyMaps(g, p);
    forall v: nat | lo <= v < PGNUM(va) + 1
      ensures v in Flat(g', e) && Private(g', e, v) && Flat(g', e)[v].flags == PWU
    {
      if v < PGNUM(va) {
        IsMapped(g, e, v);
        StaysPrivate(g, g', e, v, va, p);
      } else {
        BecomesPrivate(g, g', e, va, p);
      }
    }
  }

  lemma IsMapped(g: Graph, e: nat, v: nat)
    requires Private(g, e, v)
    ensures v in Flat(g, e)
  {
  }

  lemma StaysPrivate(g: Graph, g': Graph, e: nat, v: nat, va: nat, p: nat)
    requires va < UTOP && Remapped(g, g', e, va, Word(p, PWU)) && Private(g, e, v) && v != PGNUM(va)
    requires forall e': nat, v': nat | v' in Flat(g, e') :: Flat(g, e')[v'].addr != p
    ensures v in Flat(g', e) && Private(g', e, v) && Flat(g', e)[v] == Flat(g, e)[v]
  {
    hide Flat;
    forall e': nat, v': nat | v' in Flat(g', e') && (e' != e || v' != v)
      ensures Flat(g', e')[v'].addr != Flat(g', e)[v].addr
    {
      if e' != e || v' != PGNUM(va) {
        assert v' in Flat(g, e') && Flat(g, e')[v'] == Flat(g', e')[v'];
      }
    }
  }

  lemma BecomesPrivate(g: Graph, g': Graph, e: nat, va: nat, p: nat)
    requires va < UTOP && Remapped(g, g', e, va, Word(p, PWU))
    requires forall e': nat, v': nat | v' in Flat(g, e') :: Flat(g, e')[v'].addr != p
    ensures PGNUM(va) in Flat(g', e) && Private(g', e, PGNUM(va)) && Flat(g', e)[PGNUM(va)] == Word(p, PWU)
  {
    hide Flat;
    forall e': nat, v': nat | v' in Flat(g', e') && (e' != e || v' != PGNUM(va)) ensures Flat(g', e')[v'].addr != p {
      assert v' in Flat(g, e') && Flat(g, e')[v'] == Flat(g', e')[v'];
    }
  }

  lemma NobodyMaps(g: Graph, p: nat)
    requires forall s | s in g :: g[s].addr != p
    ensures forall e: nat, v: nat | v in Flat(g, e) :: Flat(g, e)[v].addr != p
  {
  }

  /** What mapping memory at boot costs: at most `n` free pages; no table is gone, and the screen's count has not grown.
      */
  ghost predicate BootCost(c: Counts, g: Graph, c': Counts, g': Graph, n: nat) {
    && |c'.free| + n >= |c.free|
    && (forall e: nat, i: nat | Pde(e, i) in g :: Pde(e, i) in g')
    && VGA_PAGE < |c.pages| == |c'.pages| && c'.pages[VGA_PAGE].ref <= c.pages[VGA_PAGE].ref
  }

  lemma NoBootCost(c: Counts, g: Graph, m: seq<Frame>, b: Boot)
    requires Inv(c, g, m, b, NOTHING)
    ensures BootCost(c, g, c, g, 0)
  {
    Extent(c, g, m, b, NOTHING);
  }

  lemma BootCosts(c: Counts, g: Graph, c1: Counts, g1: Graph, c2: Counts, g2: Graph, n1: nat, n2: nat)
    requires BootCost(c, g, c1, g1, n1) && BootCost(c1, g1, c2, g2, n2)
    ensures BootCost(c, g, c2, g2, n1 + n2)
  {
  }

  /** Taking a free page and mapping it. */
  lemma TakenCostsBoot(c: Counts, g: Graph, m: seq<Frame>, b: Boot, c': Counts, g': Graph, n: nat)
    requires Inv(c, g, m, b, NOTHING) && Cost(c, g, c', g', n, None)
    ensures BootCost(c, g, c', g', n)
  {
    ScreenIsData(c, g, m, b, NOTHING);
    Extent(c, g, m, b, NOTHING);
  }

  /** One round of region_alloc; `ok` is false when memory has run out. */
  method AllocAt(k: Kernel, e: nat, va: nat) returns (ok: bool, ghost p: nat)
    requires k.PageInv(NOTHING) && k.EnvsInv() && e < NENV == |k.envs| && k.envs[e].status != Free && va < UTOP
    modifies k`pages, k`pageFreeList, k`mem, k`free, k`tlbs, k`g
    ensures ok <==> PageAvailable(old(k.g), |old(k.free)|, e, va)
    ensures ok ==> k.PageInv(NOTHING) && k.EnvsInv()
    ensures ok ==> Remapped(old(k.g), k.g, e, va, Word(p, PWU)) && forall s | s in old(k.g) :: old(k.g)[s].addr != p
    ensures ok && old(k.TlbOk()) ==> k.TlbOk()
    ensures ok ==> Pde(e, PDX(va)) in k.g
    ensures ok ==> BootCost(old(k.C()), old(k.g), k.C(), k.g, if Pde(e, PDX(va)) in old(k.g) then 1 else 2)
    ensures ok ==> WalksKept(k.boot.kern, old(k.mem), k.mem)
  {
    hide Inv, EnvInv, Coherent, Remapped, SameMapped, Popped, Cost, BootCost, WalksKept;
    p := 0;
    PageNeeded(k.C(), k.g, k.mem, k.boot, e, va);
    var page := k.PageAlloc(false, NOTHING);
    if page == None {
      return false, p;
    }
    StepPop(old(k.C()), old(k.g), old(k.mem), k.boot, NOTHING);
    PoppedIsData(old(k.C()), old(k.g), old(k.mem), k.boot);
    HeldThenNothing(page.value);
    ghost var c1 := k.C();
    var rc := InsertPage(k, e, page.value, va, PWU.(p := false), Held({page.value}, {}));
    if rc == 0 {
      KernelStays(c1, old(k.g), old(k.mem), k.boot, Held({page.value}, {}), k.mem);
      TakenCosts(old(k.C()), old(k.g), k.C(), k.g, TableCost(old(k.g), e, va));
      TakenCostsBoot(old(k.C()), old(k.g), old(k.mem), k.boot, k.C(), k.g, TableCost(old(k.g), e, va) + 1);
    }
    return rc == 0, page.value;
  }

  lemma KernelAsIs(c: Counts, g: Graph, m: seq<Frame>, b: Boot)
    requires Inv(c, g, m, b, NOTHING)
    ensures WalksKept(b.kern, m, m)
  {
    hide Inv, Walk;
    Sizes(c, g, m, b, NOTHING);
    WalksSame(b.kern, m);
  }

  function RoundDown(a: nat): nat { a - a % PGSIZE }

  /** The page number where region_alloc stops. */
  function RegionEnd(va: nat, len: nat): nat {
    if len == 0 || RoundUp32(va + len) < RoundDown(va) then PGNUM(va) else PGNUM(RoundUp32(va + len))
  }

  /** How many free pages the region takes at most: its pages, and a table for every directory entry it touches. */
  function RegionNeeds(va: nat, len: nat): nat {
    var done := (if RegionEnd(va, len) < PGNUM(va) then 0 else RegionEnd(va, len) - PGNUM(va)) * PGSIZE;
    done / PGSIZE + TablesFor(RoundDown(va), done)
  }

  /** How far region_alloc has got after `done` bytes: what it has cost, and the table it is in is there. */
  ghost predicate RegionSoFar(c0: Counts, g0: Graph, c: Counts, g: Graph, e: nat, va: nat, done: nat) {
    && BootCost(c0, g0, c, g, done / PGSIZE + TablesFor(va, done))
    && (done > 0 && (va + done) % PTSIZE != 0 ==> Pde(e, (va + done) / PTSIZE) in g)
  }

  lemma RegionGoesOn(c0: Counts, g0: Graph, c: Counts, g: Graph, c': Counts, g': Graph, e: nat, va: nat, done: nat)
    requires RegionSoFar(c0, g0, c, g, e, va, done) && va % PGSIZE == 0 && done % PGSIZE == 0 && va + done < UTOP
    requires BootCost(c, g, c', g', if Pde(e, (va + done) / PTSIZE) in g then 1 else 2)
    requires Pde(e, (va + done) / PTSIZE) in g'
    ensures RegionSoFar(c0, g0, c', g', e, va, done + PGSIZE)
  {
    hide BootCost;
    var a := va + done;
    var n := if Pde(e, a / PTSIZE) in g then 1 else 2;
    BootCosts(c0, g0, c, g, c', g', done / PGSIZE + TablesFor(va, done), n);
    assert (a + PGSIZE - 1) / PTSIZE == a / PTSIZE;
    if done > 0 && a % PTSIZE == 0 {
      EntryBefore(a);
    }
    assert TablesFor(va, done + PGSIZE) + 1 >= TablesFor(va, done) + n;
    CostsLess(c0, g0, c', g', done / PGSIZE + TablesFor(va, done) + n,
              (done + PGSIZE) / PGSIZE + TablesFor(va, done + PGSIZE));
    if (a + PGSIZE) % PTSIZE != 0 {
      assert (a + PGSIZE) / PTSIZE == a / PTSIZE;
    }
  }

  lemma CostsLess(c: Counts, g: Graph, c': Counts, g': Graph, n: nat, n': nat)
    requires BootCost(c, g, c', g', n) && n <= n'
    ensures BootCost(c, g, c', g', n')
  {
  }

  lemma RegionBegins(c: Counts, g: Graph, m: seq<Frame>, b: Boot, e: nat, va: nat)
    requires Inv(c, g, m, b, NOTHING)
    ensures RegionSoFar(c, g, c, g, e, va, 0)
  {
    NoBootCost(c, g, m, b);
  }

  /** While pages are left to map, enough free pages for the whole region are enough for the next page. */
  lemma RegionHasRoom(c0: Counts, g0: Graph, c: Counts, g: Graph, e: nat, va: nat, done: nat, all: nat)
    requires RegionSoFar(c0, g0, c, g, e, va, done) && done < all && va + all <= UTOP
    requires va % PGSIZE == 0 && done % PGSIZE == 0 && all % PGSIZE == 0
    requires |c0.free| >= all / PGSIZE + TablesFor(va, all)
    ensures PageAvailable(g, |c.free|, e, va + done)
  {
    var a := va + done;
    EntryMonotone(a, va + all - 1);
    if done > 0 {
      EntryMonotone(a - 1, va + all - 1);
    }
    if done > 0 && a % PTSIZE == 0 {
      EntryBefore(a);
    }
    assert done / PGSIZE + 1 <= all / PGSIZE;
  }

  /** region_alloc; `ok` is false when it panics, which it does not if there are as many free pages as the region needs
      and its end does not wrap below its start. */
  method RegionAlloc(k: Kernel, e: nat, va0: nat, len: nat) returns (ok: bool)
    requires k.PageInv(NOTHING) && k.EnvsInv() && e < NENV == |k.envs| && k.envs[e].status != Free
    requires va0 < ADDRESS_LIMIT && len < ADDRESS_LIMIT
    requires len == 0 || RegionEnd(va0, len) <= USER_PAGES || RegionEnd(va0, len) == PGNUM(va0)
    modifies k`pages, k`pageFreeList, k`mem, k`free, k`tlbs, k`g
    ensures ok ==> k.PageInv(NOTHING) && k.EnvsInv()
    ensures ok ==> RegionMapped(old(k.g), k.g, e, PGNUM(va0), RegionEnd(va0, len))
    ensures ok && old(k.TlbOk()) ==> k.TlbOk()
    ensures ok ==> BootCost(old(k.C()), old(k.g), k.C(), k.g, RegionNeeds(va0, len))
    ensures ok ==> WalksKept(k.boot.kern, old(k.mem), k.mem)
    ensures |old(k.free)| >= RegionNeeds(va0, len) ==> (ok <==> len == 0 || RoundDown(va0) <= RoundUp32(va0 + len))
  {
    hide Inv, EnvInv, Coherent, Remapped, RegionMapped, SameMapped, Popped, BootCost, RegionSoFar, TablesFor, RoundDown,
         RoundUp32, RegionEnd, RegionNeeds, PageAvailable, WalksKept;
    KernelAsIs(k.C(), k.g, k.mem, k.boot);
    StartRegion(k.g, e, PGNUM(va0));
    NoRegion(va0);
    RegionBegins(k.C(), k.g, k.mem, k.boot, e, RoundDown(va0));
    NoBootCost(k.C(), k.g, k.mem, k.boot);
    if len == 0 {
      return true;
    }
    var finish := RoundUp32(va0 + len);
    var va := RoundDown(va0);
    PagesBetween(va0, len);
    ghost var start, enough := va, |k.free| >= RegionNeeds(va0, len);
    while va < finish
      invariant va % PGSIZE == 0 && start <= va && (va <= finish || va == start)
      invariant k.PageInv(NOTHING) && k.EnvsInv()
      invariant RegionMapped(old(k.g), k.g, e, PGNUM(va0), PGNUM(va))
      invariant RegionSoFar(old(k.C()), old(k.g), k.C(), k.g, e, start, va - start)
      invariant old(k.TlbOk()) ==> k.TlbOk()
      invariant WalksKept(k.boot.kern, old(k.mem), k.mem)
    {
      ghost var c, g, m, done := k.C(), k.g, k.mem, va - start;
      if enough {
        RegionHasRoom(old(k.C()), old(k.g), c, g, e, start, done, finish - start);
      }
      var more, p := AllocAt(k, e, va);
      if !more {
        return false;
      }
      WalksThen(k.boot.kern, old(k.mem), m, k.mem);
      RegionStep(old(k.g), g, k.g, e, PGNUM(va0), va, p);
      RegionGoesOn(old(k.C()), old(k.g), c, g, k.C(), k.g, e, start, done);
      va := va + PGSIZE;
    }
    if va == finish {
      RegionCosts(old(k.C()), old(k.g), k.C(), k.g, e, va0, len);
    }
    return va == finish;
  }

  /** region_alloc in page numbers. */
  lemma PagesBetween(va: nat, len: nat)
    requires va < ADDRESS_LIMIT && 0 < len < ADDRESS_LIMIT
    requires RegionEnd(va, len) <= USER_PAGES || RegionEnd(va, len) == PGNUM(va)
    ensures var finish := RoundUp32(va + len);
      && finish % PGSIZE == 0 && RoundDown(va) % PGSIZE == 0 && RoundDown(va) <= va && PGNUM(RoundDown(va)) == PGNUM(va)
      && (RoundDown(va) < finish ==> finish <= UTOP && RegionEnd(va, len) == PGNUM(finish))
      && (RoundDown(va) <= finish ==>
            RegionNeeds(va, len) == (finish - RoundDown(va)) / PGSIZE + TablesFor(RoundDown(va),
                        finish - RoundDown(va)))
      && (RoundDown(va) == finish ==> RegionEnd(va, len) == PGNUM(va))
  {
  }

  lemma NoRegion(va: nat)
    ensures RegionEnd(va, 0) == PGNUM(va) && RegionNeeds(va, 0) == 0
  {
  }

  lemma RegionCosts(c0: Counts, g0: Graph, c: Counts, g: Graph, e: nat, va: nat, len: nat)
    requires va < ADDRESS_LIMIT && 0 < len < ADDRESS_LIMIT && RoundDown(va) <= RoundUp32(va + len)
    requires RegionEnd(va, len) <= USER_PAGES || RegionEnd(va, len) == PGNUM(va)
    requires RegionSoFar(c0, g0, c, g, e, RoundDown(va), RoundUp32(va + len) - RoundDown(va))
    ensures BootCost(c0, g0, c, g, RegionNeeds(va, len))
  {
    PagesBetween(va, len);
  }

  lemma StartRegion(g: Graph, e: nat, lo: nat)
    ensures RegionMapped(g, g, e, lo, lo)
  {
  }

  lemma PoppedIsData(c: Counts, g: Graph, m: seq<Frame>, b: Boot)
    requires Inv(c, g, m, b, NOTHING) && c.free != []
    ensures var p := c.free[0]; p < |c.pages| && 0 < p < b.npages && NotTable(g, b, p) && c.pages[p].ref == 0
    ensures var p := c.free[0]; var d := Popped(c); p !in d.free && p < |d.pages| && d.pages[p].ref == 0
  {
    StepPop(c, g, m, b, NOTHING);
  }

  const USTACKTOP := UTOP - 2 * PGSIZE

  /** The boot CPU before it enters the scheduler: inside the kernel, on kern_pgdir, without an environment. */
  ghost predicate Booting(k: Kernel)
    reads k
  {
    Inside(k, 0) && k.cpus[0].env == None && k.cpus[0].cr3 == k.boot.kern
  }

  /** Where the linker and boot_alloc have put pages[], envs[] and the kernel's stacks. */
  datatype Places = Places(pagesPa: nat, envsPa: nat, stackPa: nat, kstacks: seq<nat>)

  predicate Aligned4K(npages: nat, at: Places) {
    && npages * PAGEINFO_SIZE % PGSIZE == 0 && at.pagesPa % PGSIZE == 0 && at.envsPa % PGSIZE == 0
    && at.stackPa % PGSIZE == 0
    && forall i | 0 <= i < |at.kstacks| :: at.kstacks[i] % PGSIZE == 0
  }

  /** mem_init from page_init on: `kern` is the page of kern_pgdir and `kernEnd` the first page after the last one that
      boot_alloc has handed out. `ok` is false when it panics. */
  method MemInit(m: seq<Frame>, kern: nat, kernEnd: nat, ncpu: nat, at: Places, large: bool) returns (k: Kernel,
                 ok: bool)
    requires EXT_PAGE <= kern < kernEnd <= |m| <= 0x100000 && ncpu > 0
    requires PlacesOk(|m|, at.pagesPa, at.envsPa, at.stackPa, at.kstacks)
    ensures fresh(k) && k.PageInv(NOTHING) && NoEnvs(k.g)
    ensures k.lock == Some(0) && k.boot == Boot(|m|, kern, Pinned(|m|, kernEnd))
    ensures k.envs == seq(NENV, _ => NO_ENV) && k.allocs == seq(NENV, _ => 0) && k.mail == seq(NENV, _ => [])
    ensures k.cpus == seq(ncpu, c => Cpu(if c == 0 then InKernel else Waiting, None, kern)) && k.tlbs == EmptyTlbs(ncpu)
    ensures k.sent == [] && k.log == seq(ncpu, _ => [])
    ensures ok ==>
      var ws := KernelWindows(|m|, at.pagesPa, at.envsPa, at.stackPa, at.kstacks);
      MappedAs(ws, k.mem, kern) && DirectoryAfter(ws, |ws|, k.mem[kern], large)
    ensures ok ==> |k.free| + KERNEL_TABLES >= IO_PAGE - 2 + |m| - kernEnd
    ensures Aligned4K(|m|, at) && IO_PAGE - 2 + |m| - kernEnd >= KERNEL_TABLES ==> ok
  {
    hide Inv, Coherent, MappedAs, Fit, TablesNeeded, CountsKept, FreeBelow, DirectoryAfter;
    var b := Boot(|m|, kern, Pinned(|m|, kernEnd));
    k := new Kernel(b, m[kern := EmptyDirectory(kern)], ncpu);
    PageInit(k, kernEnd);
    FreeBelowClosed(|m|, kernEnd);
    ghost var ws := KernelWindows(|m|, at.pagesPa, at.envsPa, at.stackPa, at.kstacks);
    KernelWindowsFit(|m|, at.pagesPa, at.envsPa, at.stackPa, at.kstacks, large);
    KernelTables(|m|, at.pagesPa, at.envsPa, at.stackPa, at.kstacks);
    assert Aligned4K(|m|, at) ==> forall w | w in ws :: Aligned(w.va, w.size, w.pa) by { WindowsAligned(|m|, at); }
    ok := MapWindows(k, KernelWindows(|m|, at.pagesPa, at.envsPa, at.stackPa, at.kstacks), large);
  }

  lemma WindowsAligned(npages: nat, at: Places)
    ensures Aligned4K(npages, at) ==>
      forall w | w in KernelWindows(npages, at.pagesPa, at.envsPa, at.stackPa, at.kstacks) ::
        Aligned(w.va, w.size, w.pa)
  {
  }

  /** The kernel's windows with the page of the local APIC, if there is one. */
  function WithLapic(ws: seq<Window>, lapicaddr: nat): seq<Window> {
    if lapicaddr == 0 then ws else ws + [Window(MMIOBASE, PGSIZE, lapicaddr, DEVICE)]
  }

  /** The device's page is the one at 0xEF800000, for the kernel only, written through and not cached. */
  lemma LapicAddress(ws: seq<Window>, lapicaddr: nat, v: Page)
    requires lapicaddr != 0
    ensures Described(WithLapic(ws, lapicaddr), v) ==
            if v.i * 1024 + v.j == 0xEF800 then Some(Translation(lapicaddr / 0x1000, true, false, true, true))
            else Described(ws, v)
  {
    AnotherWindow(ws, Window(MMIOBASE, PGSIZE, lapicaddr, DEVICE));
  }

  lemma LapicFits()
    ensures RoundUp32(PGSIZE) == PGSIZE && !Overflows(MMIOBASE, PGSIZE) && TablesFor(MMIOBASE, PGSIZE) == 1
  {
  }

  /** lapic_init up to the programming of the device; `lapicaddr` is what mp_init has found, or 0. */
  method LapicInit(k: Kernel, lapicaddr: nat, large: bool, ghost ws: seq<Window>) returns (ok: bool)
    requires k.PageInv(NOTHING) && NoEnvs(k.g) && lapicaddr + PGSIZE <= ADDRESS_LIMIT
    requires MappedAs(ws, k.mem, k.boot.kern) && DirectoryAfter(ws, |ws|, k.mem[k.boot.kern], large)
    requires forall w | w in ws :: !Touches(w.va, w.size, MMIOBASE / PTSIZE)
    modifies k`pages, k`pageFreeList, k`mem, k`free, k`g
    ensures k.PageInv(NOTHING) && NoEnvs(k.g)
    ensures ok ==> MappedAs(WithLapic(ws, lapicaddr), k.mem, k.boot.kern) && |k.free| + 1 >= |old(k.free)|
    ensures lapicaddr % PGSIZE == 0 && |old(k.free)| >= 1 ==> ok
  {
    assert k.boot.kern < |k.mem|;
    LapicFits();
    hide Inv, Coherent, NoEnvs, Mapped, MappedAs, CountsKept, DirectoryKept, DirectoryAfter, Mappable, TablesFor,
         Touches, RoundUp32, Overflows;
    if lapicaddr == 0 {
      return true;
    }
    ghost var m := k.mem;
    DeviceEntry(ws, k.mem[k.boot.kern], large);
    var lapic, base;
    ok, lapic, base := MmioMapRegion(k, MMIOBASE, lapicaddr, PGSIZE, large);
    if ok {
      OneMoreWindow(ws, Window(MMIOBASE, PGSIZE, lapicaddr, DEVICE), m, k.mem, k.boot.kern);
    }
  }

  /** After env_init the whole invariant of runs holds. */
  lemma ReadyToBoot(k: Kernel, ncpu: nat)
    requires k.PageInv(NOTHING) && k.EnvsInv() && ncpu > 0 && k.lock == Some(0)
    requires |k.envs| == NENV && (forall e | 0 <= e < NENV :: k.envs[e].status == Free) && k.mail == seq(NENV, _ => [])
    requires k.allocs == seq(NENV, _ => 0) && k.sent == [] && k.log == seq(ncpu, _ => [])
    requires k.cpus == seq(ncpu, c => Cpu(if c == 0 then InKernel else Waiting, None, k.boot.kern))
    requires k.tlbs == EmptyTlbs(ncpu)
    ensures Booting(k)
  {
    hide Inv, EnvInv;
    Sizes(k.C(), k.g, k.mem, k.boot, NOTHING);
    forall c | 0 <= c < |k.cpus| ensures CpuOk(k.cpus[c], c, k.lock, k.envs, k.boot.kern) {
    }
    KernIsRoot(k.g, k.boot);
  }

  predicate InSegment(s: (nat, nat), v: nat) { s.1 > 0 && PGNUM(s.0) <= v <= PGNUM(s.0 + s.1 - 1) }

  /** Page `v` is mapped writable for environment `e`. */
  ghost predicate WritablePage(g: Graph, e: nat, v: nat) {
    v in Flat(g, e) && Flat(g, e)[v].flags == NO_FLAGS.(p := true, w := true, u := true)
  }

  /** Every page of the first `n` segments is mapped writable. */
  ghost predicate SegmentsMapped(g: Graph, e: nat, segments: seq<(nat, nat)>, n: nat) {
    forall k, v: nat | 0 <= k < n && k < |segments| && InSegment(segments[k], v) :: WritablePage(g, e, v)
  }

  /** Mapping one more region keeps the segments mapped so far. */
  lemma RegionAdds(g: Graph, g': Graph, e: nat, segments: seq<(nat, nat)>, n: nat, lo: nat, hi: nat)
    requires SegmentsMapped(g, e, segments, n) && RegionMapped(g, g', e, lo, hi)
    ensures SegmentsMapped(g', e, segments, n)
    ensures forall v: nat | lo <= v < hi :: WritablePage(g', e, v)
  {
    forall v: nat | lo <= v < hi || WritablePage(g, e, v) ensures WritablePage(g', e, v) {
      RegionKeepsWritable(g, g', e, lo, hi, v);
    }
  }

  lemma RegionKeepsWritable(g: Graph, g': Graph, e: nat, lo: nat, hi: nat, v: nat)
    requires RegionMapped(g, g', e, lo, hi) && (lo <= v < hi || WritablePage(g, e, v))
    ensures WritablePage(g', e, v)
  {
    hide Flat;
    if lo <= v < hi {
      assert Private(g', e, v);
    }
  }

  lemma NoSegments(g: Graph, e: nat, segments: seq<(nat, nat)>)
    ensures SegmentsMapped(g, e, segments, 0)
  {
  }

  lemma OneMoreSegment(g: Graph, e: nat, segments: seq<(nat, nat)>, n: nat)
    requires SegmentsMapped(g, e, segments, n) && n < |segments|
    requires forall v: nat | InSegment(segments[n], v) :: WritablePage(g, e, v)
    ensures SegmentsMapped(g, e, segments, n + 1)
  {
  }

  /** How many free pages the segments take at most. */
  function SegmentsNeed(segments: seq<(nat, nat)>): nat {
    if segments == [] then 0
    else
      var (va, len) := segments[|segments| - 1];
      SegmentsNeed(segments[..|segments| - 1]) + RegionNeeds(va, len)
  }

  lemma NothingNeeded(segments: seq<(nat, nat)>)
    ensures SegmentsNeed(segments[..0]) == 0
  {
  }

  lemma OneMoreNeeds(segments: seq<(nat, nat)>, n: nat)
    requires n < |segments|
    ensures SegmentsNeed(segments[..n + 1]) == SegmentsNeed(segments[..n]) + RegionNeeds(segments[n].0, segments[n].1)
  {
    assert segments[..n + 1][..n] == segments[..n];
  }

  lemma {:induction false} FirstNeedLess(segments: seq<(nat, nat)>, n: nat)
    requires n <= |segments|
    ensures SegmentsNeed(segments[..n]) <= SegmentsNeed(segments)
    decreases |segments| - n
  {
    if n < |segments| {
      OneMoreNeeds(segments, n);
      FirstNeedLess(segments, n + 1);
    } else {
      assert segments[..n] == segments;
    }
  }

  lemma SegmentEnd(va: nat, len: nat)
    requires va + len <= UTOP
    ensures va < ADDRESS_LIMIT && len < ADDRESS_LIMIT
    ensures len == 0 ==> RegionEnd(va, len) == PGNUM(va)
    ensures len > 0 ==>
      RegionEnd(va, len) == PGNUM(va + len - 1) + 1 <= USER_PAGES && RoundDown(va) <= RoundUp32(va + len)
  {
  }

  /** The loop of load_icode. */
  method LoadSegments(k: Kernel, e: nat, segments: seq<(nat, nat)>) returns (ok: bool)
    requires k.PageInv(NOTHING) && k.EnvsInv() && e < NENV == |k.envs| && k.envs[e].status != Free
    requires forall s | s in segments :: s.0 + s.1 <= UTOP
    modifies k`pages, k`pageFreeList, k`mem, k`free, k`tlbs, k`g
    ensures ok ==> k.PageInv(NOTHING) && k.EnvsInv() && SegmentsMapped(k.g, e, segments, |segments|)
    ensures ok ==> (forall e': nat | e' != e :: Flat(k.g, e') == Flat(old(k.g), e')) && SameDirs(old(k.g), k.g)
    ensures ok && old(k.TlbOk()) ==> k.TlbOk()
    ensures ok ==> WalksKept(k.boot.kern, old(k.mem), k.mem)
    ensures ok ==> BootCost(old(k.C()), old(k.g), k.C(), k.g, SegmentsNeed(segments))
    ensures |old(k.free)| >= SegmentsNeed(segments) ==> ok
  {
    hide Inv, EnvInv, Coherent, Flat, SegmentsMapped, WritablePage, BootCost, SegmentsNeed, RegionNeeds, RegionEnd,
         RoundDown, RoundUp32, Private, WalksKept;
    KernelAsIs(k.C(), k.g, k.mem, k.boot);
    NoSegments(k.g, e, segments);
    NothingNeeded(segments);
    NoBootCost(k.C(), k.g, k.mem, k.boot);
    ghost var c0, g0 := k.C(), k.g;
    for i := 0 to |segments|
      invariant k.PageInv(NOTHING) && k.EnvsInv() && SegmentsMapped(k.g, e, segments, i)
      invariant (forall e': nat | e' != e :: Flat(k.g, e') == Flat(old(k.g), e')) && SameDirs(old(k.g), k.g)
      invariant old(k.TlbOk()) ==> k.TlbOk()
      invariant WalksKept(k.boot.kern, old(k.mem), k.mem)
      invariant BootCost(c0, g0, k.C(), k.g, SegmentsNeed(segments[..i]))
    {
      ghost var c, g, m := k.C(), k.g, k.mem;
      var (va, len) := segments[i];
      assert segments[i] in segments;
      SegmentEnd(va, len);
      OneMoreNeeds(segments, i);
      FirstNeedLess(segments, i + 1);
      StillEnough(c0, g0, c, g, SegmentsNeed(segments[..i]));
      ok := RegionAlloc(k, e, va, len);
      if !ok {
        return;
      }
      WalksThen(k.boot.kern, old(k.mem), m, k.mem);
      RegionAdds(g, k.g, e, segments, i, PGNUM(va), RegionEnd(va, len));
      OneMoreSegment(k.g, e, segments, i);
      BootCosts(c0, g0, c, g, k.C(), k.g, SegmentsNeed(segments[..i]), RegionNeeds(va, len));
    }
    assert segments[..|segments|] == segments;
    return true;
  }

  /** The part of load_icode that maps memory: every segment, then one page of stack. */
  method LoadIcode(k: Kernel, e: nat, segments: seq<(nat, nat)>) returns (ok: bool)
    requires k.PageInv(NOTHING) && k.EnvsInv() && e < NENV == |k.envs| && k.envs[e].status != Free
    requires forall s | s in segments :: s.0 + s.1 <= UTOP
    modifies k`pages, k`pageFreeList, k`mem, k`free, k`tlbs, k`g
    ensures ok ==> k.PageInv(NOTHING) && k.EnvsInv()
    ensures ok ==> SegmentsMapped(k.g, e, segments, |segments|) && WritablePage(k.g, e, PGNUM(USTACKTOP) - 1)
    ensures ok ==> (forall e': nat | e' != e :: Flat(k.g, e') == Flat(old(k.g), e')) && SameDirs(old(k.g), k.g)
    ensures ok && old(k.TlbOk()) ==> k.TlbOk()
    ensures ok ==> WalksKept(k.boot.kern, old(k.mem), k.mem)
    ensures ok ==> BootCost(old(k.C()), old(k.g), k.C(), k.g, SegmentsNeed(segments) + STACK_NEEDS)
    ensures |old(k.free)| >= SegmentsNeed(segments) + STACK_NEEDS ==> ok
  {
    hide Inv, EnvInv, Coherent, Flat, SegmentsMapped, WritablePage, BootCost, SegmentsNeed, RegionNeeds, RegionEnd,
         RoundDown, RoundUp32, Private, WalksKept;
    ok := LoadSegments(k, e, segments);
    if !ok {
      return;
    }
    ghost var c, g, m := k.C(), k.g, k.mem;
    StillEnough(old(k.C()), old(k.g), c, g, SegmentsNeed(segments));
    SegmentEnd(USTACKTOP - PGSIZE, PGSIZE);
    StackNeeds();
    ok := RegionAlloc(k, e, USTACKTOP - PGSIZE, PGSIZE);
    if ok {
      WalksThen(k.boot.kern, old(k.mem), m, k.mem);
      RegionAdds(g, k.g, e, segments, |segments|, PGNUM(USTACKTOP) - 1, PGNUM(USTACKTOP));
      BootCosts(old(k.C()), old(k.g), c, g, k.C(), k.g, SegmentsNeed(segments), STACK_NEEDS);
    }
  }

  /** A page and a table. */
  const STACK_NEEDS := 2

  lemma StackNeeds()
    ensures RegionNeeds(USTACKTOP - PGSIZE, PGSIZE) == STACK_NEEDS
  {
    SegmentEnd(USTACKTOP - PGSIZE, PGSIZE);
  }

  lemma StillEnough(c: Counts, g: Graph, c': Counts, g': Graph, n: nat)
    requires BootCost(c, g, c', g', n)
    ensures |c'.free| >= |c.free| - n
  {
  }

  lemma BirthKeepsKernel(c: Counts, g: Graph, m: seq<Frame>, b: Boot, c': Counts, g': Graph, m': seq<Frame>, e: nat)
    requires Inv(c, g, m, b, NOTHING) && Dir(e) !in g && |c.free| >= 2 && Inv(c', g', m', b, NOTHING)
    requires |m| == |m'| == b.npages ==>
      forall p | 0 <= p < b.npages && p != c.free[0] && p != c.free[1] :: m'[p] == m[p]
    ensures WalksKept(b.kern, m, m')
  {
    hide Inv, WalksKept, SameMapped, Remapped, WithEnv;
    Sizes(c, g, m, b, NOTHING);
    Sizes(c', g', m', b, NOTHING);
    NewEnvView(c, g, m, b, m', e, c.free[0], c.free[1]);
    KernelStays(c, g, m, b, NOTHING, m');
  }

  /** A new environment while booting. */
  method BootEnv(k: Kernel) returns (ok: bool, e: nat)
    requires Booting(k) && ScreenHasRoom(k)
    modifies k`pages, k`pageFreeList, k`mem, k`free, k`tlbs, k`g, k`envs, k`envFreeList, k`envFree, k`allocs, k`mail
    ensures ok <==> old(k.envFree) != [] && |old(k.free)| >= 2
    ensures ok ==> Booting(k) && e < NENV == |k.envs| == |k.mail| && !Woken(k.mail[e])
    ensures ok ==> k.envs[e].status == Runnable && k.envs[e].pgdir.Some?
    ensures ok ==>
      && e == old(k.envFree)[0] && k.envFree == old(k.envFree)[1..] && |old(k.envs)| == NENV
      && OthersSame(old(k.envs), k.envs, e) && k.envs[e].id == NextId(old(k.envs)[e].id, e)
      && k.envs[e].parent == 0 && k.envs[e].tf.eax == 0 && !k.envs[e].recving
    ensures ok ==> WalksKept(k.boot.kern, old(k.mem), k.mem)
    ensures ok ==> |k.free| == |old(k.free)| - 2 && |k.envFree| == |old(k.envFree)| - 1
    ensures ok ==> VGA_PAGE < |k.pages| == |old(k.pages)| && k.pages[VGA_PAGE].ref <= old(k.pages)[VGA_PAGE].ref + 1
  {
    hide Inv, EnvInv, RunOk, MailOk, Coherent, WithEnv, CountsWithEnv, IdAfter, BoxOk, LogOk, WalksKept;
    EnvSizes(k.envs, k.envFreeList, k.envFree, k.allocs, k.g);
    MailSizes(k.envs, k.mail, k.allocs, k.sent);
    if |k.free| >= 2 {
      FreeAfterAlloc(k.C(), k.g, k.mem, k.boot);
      ScreenOnceMore(k.C(), k.g, k.mem, k.boot);
    }
    var r;
    r, e := EnvAlloc(k, 0);
    if !r.Done? {
      return false, e;
    }
    BirthKeepsKernel(old(k.C()), old(k.g), old(k.mem), k.boot, k.C(), k.g, k.mem, e);
    FreeIsOnNoCpu(old(k.envs), k.cpus, 0, k.boot.kern, e);
    OffCpuChangeKeeps(old(k.envs), k.cpus, 0, k.boot.kern, e, k.envs[e]);
    BirthKeeps(old(k.envs), k.mail, old(k.allocs), k.sent, e, k.envs[e]);
    k.mail := k.mail[e := []];
    return true, e;
  }

  /** What env_create takes at most: directory and first table, the segments and the stack. */
  function ProgramNeeds(segments: seq<(nat, nat)>): nat { 2 + SegmentsNeed(segments) + STACK_NEEDS }

  /** lcr3, load_icode, lcr3: the boot CPU uses the new environment's directory meanwhile. */
  method LoadProgram(k: Kernel, e: nat, segments: seq<(nat, nat)>) returns (ok: bool)
    requires Booting(k) && e < NENV == |k.envs| && k.envs[e].status != Free && k.envs[e].pgdir.Some?
    requires forall s | s in segments :: s.0 + s.1 <= UTOP
    modifies k`pages, k`pageFreeList, k`mem, k`free, k`tlbs, k`g, k`cpus
    ensures ok ==> Booting(k) && k.cpus == old(k.cpus) && WalksKept(k.boot.kern, old(k.mem), k.mem)
    ensures ok ==> SegmentsMapped(k.g, e, segments, |segments|) && WritablePage(k.g, e, PGNUM(USTACKTOP) - 1)
    ensures ok ==> BootCost(old(k.C()), old(k.g), k.C(), k.g, SegmentsNeed(segments) + STACK_NEEDS)
    ensures |old(k.free)| >= SegmentsNeed(segments) + STACK_NEEDS ==> ok
  {
    hide Inv, EnvInv, RunOk, MailOk, Coherent, Flat, SegmentsMapped, WritablePage, IdAfter, LogOk, BootCost,
         SegmentsNeed, WalksKept;
    ghost var cpus, tlbs := k.cpus, k.tlbs;
    DirectoryLoads(k, e);
    k.Lcr3(0, k.envs[e].pgdir.value);
    ok := LoadIcode(k, e, segments);
    if !ok {
      return;
    }
    Extent(k.C(), k.g, k.mem, k.boot, NOTHING);
    k.Lcr3(0, k.boot.kern);
    assert k.cpus == cpus;
  }

  /** env_create. The program's segments are given by address and length, and `entry` is where it starts; the contents
      of the segments are not modelled. `ok` is false when it panics, which it does not if a slot is free and as many
      pages as the program needs. */
  method EnvCreate(k: Kernel, segments: seq<(nat, nat)>, entry: int) returns (ok: bool, e: nat)
    requires Booting(k) && ScreenHasRoom(k)
    requires forall s | s in segments :: s.0 + s.1 <= UTOP
    modifies k
    ensures ok ==> Booting(k) && k.cpus == old(k.cpus) && WalksKept(k.boot.kern, old(k.mem), k.mem)
    ensures ok ==>
      && old(k.envFree) != [] && e == old(k.envFree)[0] < NENV == |k.envs| == |old(k.envs)|
      && k.envFree == old(k.envFree)[1..] && OthersSame(old(k.envs), k.envs, e)
      && k.envs[e].status == Runnable && k.envs[e].tf == Trapframe(0, entry) && !k.envs[e].recving
      && k.envs[e].parent == 0 && k.envs[e].id == NextId(old(k.envs)[e].id, e)
    ensures ok ==> SegmentsMapped(k.g, e, segments, |segments|) && WritablePage(k.g, e, 0xEEBFD)
    ensures old(k.envFree) != [] && |old(k.free)| >= ProgramNeeds(segments) ==> ok
    ensures ok ==> |k.free| + ProgramNeeds(segments) >= |old(k.free)|
    ensures ok ==> VGA_PAGE < |k.pages| == |old(k.pages)| && k.pages[VGA_PAGE].ref <= old(k.pages)[VGA_PAGE].ref + 1
  {
    hide Inv, EnvInv, RunOk, MailOk, Coherent, Flat, SegmentsMapped, WritablePage, IdAfter, LogOk, SegmentsNeed, Woken,
         WalksKept;
    ok, e := BootEnv(k);
    if !ok {
      return;
    }
    ghost var m := k.mem;
    SaveRegisters(k, e, k.envs[e].tf.(rest := entry));
    ok := LoadProgram(k, e, segments);
    if ok {
      WalksThen(k.boot.kern, old(k.mem), m, k.mem);
    }
  }

  lemma DirectoryLoads(k: Kernel, e: nat)
    requires Booting(k) && e < NENV == |k.envs| && k.envs[e].pgdir.Some?
    ensures 0 < |k.cpus|
    ensures |k.cpus| == 1 ==>
      Coherent(Emptied(k.tlbs, 0), 0, k.cpus[0 := k.cpus[0].(cr3 := k.envs[e].pgdir.value)], k.envs, k.g, k.boot, k.mem)
  {
    hide Inv, RunOk, MailOk, IdAfter;
    EnvSizes(k.envs, k.envFreeList, k.envFree, k.allocs, k.g);
    Sizes(k.C(), k.g, k.mem, k.boot, NOTHING);
    assert Dir(e) in k.g && k.g[Dir(e)].addr == k.envs[e].pgdir.value;
    assert Root(k.g, k.boot, k.envs[e].pgdir.value);
    if |k.cpus| == 1 {
      LoadingIsCoherent(k.tlbs, 0, k.cpus[0 := k.cpus[0].(cr3 := k.envs[e].pgdir.value)], k.envs, k.g, k.boot, k.mem);
    }
  }

  /** The end of i386_init: the boot CPU enters the scheduler. From here on every run keeps the invariant. */
  method StartScheduling(k: Kernel) returns (dead: bool)
    requires Booting(k)
    modifies k`envs, k`cpus, k`lock, k`mail, k`tlbs, k`log
    ensures !dead ==> SystemInv(k) && k.lock == None
    ensures !dead ==>
      && |old(k.log)| > 0 && |old(k.cpus)| > 0
      && Rescheduled(old(k.envs), None, old(k.log)[0], old(k.cpus), old(k.log), 0, k.envs, k.cpus, k.log)
    ensures dead <==> !SomethingToRun(old(k.envs))
  {
    hide Inv, EnvInv, RunOk, MailOk, Coherent, Scheduled, LogOk, Rescheduled;
    dead := SchedYield(k, 0);
  }

  function ProgramsNeed(programs: seq<(seq<(nat, nat)>, int)>): nat {
    if programs == [] then 0
    else ProgramsNeed(programs[..|programs| - 1]) + ProgramNeeds(programs[|programs| - 1].0)
  }

  lemma OneMoreProgram(programs: seq<(seq<(nat, nat)>, int)>, n: nat)
    requires n < |programs|
    ensures ProgramsNeed(programs[..n + 1]) == ProgramsNeed(programs[..n]) + ProgramNeeds(programs[n].0)
  {
    hide ProgramNeeds;
    assert programs[..n + 1][..n] == programs[..n];
  }

  lemma {:induction false} FirstProgramsNeedLess(programs: seq<(seq<(nat, nat)>, int)>, n: nat)
    requires n <= |programs|
    ensures ProgramsNeed(programs[..n]) <= ProgramsNeed(programs) && ProgramsNeed(programs[..0]) == 0
    decreases |programs| - n
  {
    if n < |programs| {
      OneMoreProgram(programs, n);
      FirstProgramsNeedLess(programs, n + 1);
    } else {
      assert programs[..n] == programs;
    }
  }

  /** Before there are environments only the boot pin counts the screen. */
  lemma ScreenAtBoot(c: Counts, g: Graph, m: seq<Frame>, b: Boot)
    requires Inv(c, g, m, b, NOTHING) && NoEnvs(g)
    ensures VGA_PAGE < |c.pages| && c.pages[VGA_PAGE].ref == 1
  {
    Extent(c, g, m, b, NOTHING);
    forall e: nat, i: nat, j: nat ensures Pte(e, i, j) !in g {
      NoDirNoEntries(c, g, m, b, NOTHING, e);
    }
    assert forall s | s in g :: !s.Pte?;
    NoRefs(g, VGA_PAGE);
  }

  /** The `j`-th environment of a boot: its id is 0x1000 + j, it has no parent, and it starts at `entry`. */
  predicate BootedWith(v: Env, j: nat, entry: int) {
    v.id == 0x1000 + j && v.parent == 0 && v.tf == Trapframe(0, entry) && !v.recving
  }

  /** The first `n` programs have the first `n` slots, and the others are free. */
  predicate Created(envs: seq<Env>, programs: seq<(seq<(nat, nat)>, int)>, n: nat) {
    && |envs| == NENV && n <= |programs| && n <= NENV
    && (forall j: nat | j < n :: envs[j].status == Runnable && BootedWith(envs[j], j, programs[j].1))
    && forall j: nat | n <= j < NENV :: envs[j].status == Free && envs[j].id == 0
  }

  lemma OneMoreCreated(envs: seq<Env>, envs': seq<Env>, programs: seq<(seq<(nat, nat)>, int)>, n: nat)
    requires Created(envs, programs, n) && n < |programs| && n < NENV && OthersSame(envs, envs', n)
    requires envs'[n].status == Runnable && envs'[n].tf == Trapframe(0, programs[n].1) && !envs'[n].recving
    requires envs'[n].parent == 0 && envs'[n].id == NextId(envs[n].id, n)
    ensures Created(envs', programs, n + 1)
  {
    assert NextId(0, n) == 0x1000 + n;
  }

  lemma NoneCreated(envs: seq<Env>, programs: seq<(seq<(nat, nat)>, int)>)
    requires |envs| == NENV && forall e | 0 <= e < NENV :: envs[e].status == Free && envs[e].id == 0
    ensures Created(envs, programs, 0)
  {
  }

  lemma NextSlots(n: nat)
    requires n < NENV
    ensures SlotsFrom(n)[1..] == SlotsFrom(n + 1) && SlotsFrom(n)[0] == n
  {
  }

  /** The programs of i386_init, one env_create after another. */
  method CreatePrograms(k: Kernel, programs: seq<(seq<(nat, nat)>, int)>) returns (ok: bool)
    requires Booting(k) && k.envFree == SlotsFrom(0) && Created(k.envs, programs, 0)
    requires VGA_PAGE < |k.pages| && k.pages[VGA_PAGE].ref == 1
    requires forall p, s | p in programs && s in p.0 :: s.0 + s.1 <= UTOP
    modifies k
    ensures ok ==> Booting(k) && k.cpus == old(k.cpus) && Created(k.envs, programs, |programs|)
    ensures ok ==> WalksKept(k.boot.kern, old(k.mem), k.mem)
    ensures |programs| <= NENV && |old(k.free)| >= ProgramsNeed(programs) ==> ok
  {
    hide Inv, EnvInv, RunOk, MailOk, Coherent, SegmentsMapped, IdAfter, LogOk, ProgramsNeed, ProgramNeeds, WritablePage,
         Created, OthersSame, WalksKept;
    KernelAsIs(k.C(), k.g, k.mem, k.boot);
    FirstProgramsNeedLess(programs, 0);
    for i := 0 to |programs|
      invariant Booting(k) && k.cpus == old(k.cpus) && Created(k.envs, programs, i)
      invariant WalksKept(k.boot.kern, old(k.mem), k.mem)
      invariant i <= NENV && k.envFree == SlotsFrom(i) && VGA_PAGE < |k.pages| && k.pages[VGA_PAGE].ref <= 1 + i
      invariant |k.free| + ProgramsNeed(programs[..i]) >= |old(k.free)|
    {
      assert programs[i] in programs;
      OneMoreProgram(programs, i);
      FirstProgramsNeedLess(programs, i + 1);
      ghost var envs, m := k.envs, k.mem;
      var e;
      ok, e := EnvCreate(k, programs[i].0, programs[i].1);
      if !ok {
        return;
      }
      NextSlots(i);
      WalksThen(k.boot.kern, old(k.mem), m, k.mem);
      OneMoreCreated(envs, k.envs, programs, i);
    }
    return true;
  }

  /** The boot CPU runs the first program; the others can run, and no other slot is in use. */
  predicate FirstRuns(envs: seq<Env>, cpus: seq<Cpu>, programs: seq<(seq<(nat, nat)>, int)>) {
    && |envs| == NENV && 0 < |programs| <= NENV && 0 < |cpus| && cpus[0].env == Some(0) && cpus[0].place == InUser
    && (forall j: nat | j < |programs| ::
          envs[j].status == (if j == 0 then Running else Runnable) && BootedWith(envs[j], j, programs[j].1))
    && forall j: nat | |programs| <= j < NENV :: envs[j].status == Free
  }

  lemma SlotZeroRuns(envs: seq<Env>, programs: seq<(seq<(nat, nat)>, int)>, turns: seq<Turn>, cpus: seq<Cpu>,
                     log: seq<seq<Turn>>, envs': seq<Env>, cpus': seq<Cpu>, log': seq<seq<Turn>>)
    requires Created(envs, programs, |programs|) && SomethingToRun(envs)
    requires Rescheduled(envs, None, turns, cpus, log, 0, envs', cpus', log')
    ensures |cpus'| == |cpus| && FirstRuns(envs', cpus', programs)
  {
    assert programs != [];
    assert RunnableAfter(envs, -1, 1);
  }

  lemma CreatedCanRun(envs: seq<Env>, programs: seq<(seq<(nat, nat)>, int)>)
    requires Created(envs, programs, |programs|)
    ensures SomethingToRun(envs) <==> programs != []
  {
    if programs != [] {
      assert envs[0].status == Runnable;
    }
  }

  /** The end of i386_init: the programs, and the scheduler. */
  method BootPrograms(k: Kernel, programs: seq<(seq<(nat, nat)>, int)>) returns (ok: bool)
    requires Booting(k) && k.envFree == SlotsFrom(0) && Created(k.envs, programs, 0)
    requires VGA_PAGE < |k.pages| && k.pages[VGA_PAGE].ref == 1
    requires forall p, s | p in programs && s in p.0 :: s.0 + s.1 <= UTOP
    modifies k
    ensures ok ==> SystemInv(k) && k.lock == None && FirstRuns(k.envs, k.cpus, programs)
    ensures ok ==> |k.cpus| == |old(k.cpus)| && WalksKept(k.boot.kern, old(k.mem), k.mem)
    ensures 0 < |programs| <= NENV && |old(k.free)| >= ProgramsNeed(programs) ==> ok
  {
    hide SystemInv, ProgramsNeed, Created, FirstRuns, Rescheduled, SlotsFrom, SomethingToRun, WalksKept;
    ok := CreatePrograms(k, programs);
    if !ok {
      return;
    }
    CreatedCanRun(k.envs, programs);
    ghost var envs, cpus, log := k.envs, k.cpus, k.log;
    var dead := StartScheduling(k);
    ok := !dead;
    if ok {
      SlotZeroRuns(envs, programs, log[0], cpus, log, k.envs, k.cpus, k.log);
    }
  }

  lemma StillMappedAs(ws: seq<Window>, m: seq<Frame>, m': seq<Frame>, kern: nat)
    requires MappedAs(ws, m, kern) && WalksKept(kern, m, m')
    ensures MappedAs(ws, m', kern)
  {
    hide Walk, Described;
  }

  /** So in every run after boot every environment has the kernel's address space where the windows put it. */
  lemma LayoutEverywhere(ws: seq<Window>, kern: nat, g: Graph, m0: seq<Frame>, m: seq<Frame>, e: nat, v: Page)
    requires MappedAs(ws, m0, kern) && UpperHalf(g, kern, m0, m) && Dir(e) in g
    requires 955 <= v.i < NPTENTRIES && v.j < NPTENTRIES && v.i != UVPT_PDX
    ensures g[Dir(e)].addr < |m| && Walk(m, g[Dir(e)].addr, v) == Described(ws, v)
  {
    hide Walk, Described;
    assert Walk(m0, kern, v) == Described(ws, v);
  }

  /** From power-on to the first run: memory and the kernel's address space (with either variant of boot_map_region),
      the environment table, the local APIC's page, the first programs, the scheduler. `ok` is false when boot panics
      or has nothing to run; it is true if there are programs, no more than slots, and enough memory after the kernel
      for its tables and for them. */
  method BootSystem(m: seq<Frame>, kern: nat, kernEnd: nat, ncpu: nat, at: Places, lapicaddr: nat, large: bool,
                    programs: seq<(seq<(nat, nat)>, int)>)
    returns (k: Kernel, ok: bool)
    requires EXT_PAGE <= kern < kernEnd <= |m| <= 0x100000 && ncpu > 0
    requires PlacesOk(|m|, at.pagesPa, at.envsPa, at.stackPa, at.kstacks) && lapicaddr + PGSIZE <= ADDRESS_LIMIT
    requires forall p, s | p in programs && s in p.0 :: s.0 + s.1 <= UTOP
    ensures fresh(k)
    ensures ok ==> SystemInv(k) && k.lock == None
    ensures ok ==> |k.cpus| == ncpu && FirstRuns(k.envs, k.cpus, programs)
    ensures ok ==>
      k.boot.kern == kern
      && MappedAs(WithLapic(KernelWindows(|m|, at.pagesPa, at.envsPa, at.stackPa, at.kstacks), lapicaddr), k.mem, kern)
    ensures
      (&& 0 < |programs| <= NENV && Aligned4K(|m|, at) && lapicaddr % PGSIZE == 0
       && IO_PAGE - 2 + |m| - kernEnd >= KERNEL_TABLES + 1 + ProgramsNeed(programs)) ==> ok
  {
    hide Inv, EnvInv, RunOk, MailOk, Coherent, MappedAs, Pinned, IdAfter, LogOk, PlacesOk, Aligned4K, ProgramsNeed,
         DirectoryAfter, KernelWindows, Touches, Created, FirstRuns, SlotsFrom, WalksKept, WithLapic;
    k, ok := MemInit(m, kern, kernEnd, ncpu, at, large);
    if !ok {
      return;
    }
    EnvInit(k);
    NoneCreated(k.envs, programs);
    ghost var g := k.g;
    DeviceWindowFree(|m|, at.pagesPa, at.envsPa, at.stackPa, at.kstacks);
    ok := LapicInit(k, lapicaddr, large, KernelWindows(|m|, at.pagesPa, at.envsPa, at.stackPa, at.kstacks));
    if !ok {
      return;
    }
    DirsSame(k.envs, k.envFreeList, k.envFree, k.allocs, g, k.g);
    ScreenAtBoot(k.C(), k.g, k.mem, k.boot);
    ReadyToBoot(k, ncpu);
    ghost var m1 := k.mem;
    ok := BootPrograms(k, programs);
    if ok {
      StillMappedAs(WithLapic(KernelWindows(|m|, at.pagesPa, at.envsPa, at.stackPa, at.kstacks), lapicaddr), m1, k.mem,
                    kern);
    }
  }
}

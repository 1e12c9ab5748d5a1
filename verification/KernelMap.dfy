/** The kernel's part of the address space, as mem_init and mem_init_mp (kern/pmap.c) lay it out by calls of
    boot_map_region. */
module KernelMap {
  import opened Layout
  import opened PageState
  import opened Steps
  import opened Pmap
  import opened Tlb
  import opened BootMap

  const UPAGES := 0xEF000000
  const UENVS := UTOP
  const KERNBASE := 0xF0000000
  const KSTACKTOP := KERNBASE
  const KSTKSIZE := 8 * PGSIZE
  const KSTKGAP := 8 * PGSIZE
  const NCPU := 8
  /** sizeof(struct PageInfo) and sizeof(struct Env). */
  const PAGEINFO_SIZE := 8
  const ENV_SIZE := 124

  /** The arguments of one call of boot_map_region. */
  datatype Window = Window(va: nat, size: nat, pa: nat, perm: Flags)

  predicate Covers(w: Window, n: nat) { PGNUM(w.va) <= n < PGNUM(w.va + w.size) }

  /** The translation of a page after calls of boot_map_region in this order: the last window that covers it decides. */
  function Described(ws: seq<Window>, v: Page): Option<Translation> {
    if ws == [] then None
    else
      var w := ws[|ws| - 1];
      if Covers(w, Number(v)) then Some(Promised(Number(v), w.va, w.pa, w.perm)) else Described(ws[..|ws| - 1], v)
  }

  /** How many tables the windows may need. */
  function TablesNeeded(ws: seq<Window>): nat {
    if ws == [] then 0
    else TablesNeeded(ws[..|ws| - 1]) + TablesFor(ws[|ws| - 1].va, ws[|ws| - 1].size)
  }

  predicate IsLarge(w: Window, large: bool) { UsesLarge(w.size, large) }

  /** The windows lie above UTOP and off the UVPT entry; one made of 4 MB pages has its directory entries to itself. */
  ghost predicate Fit(ws: seq<Window>, large: bool) {
    && (forall k | 0 <= k < |ws| :: Placed(ws[k].va, ws[k].size, ws[k].pa) && !Touches(ws[k].va, ws[k].size, UVPT_PDX))
    && (forall k | 0 <= k < |ws| && IsLarge(ws[k], large) :: ws[k].va % PTSIZE == ws[k].pa % PTSIZE)
    && (forall k, l, i: nat | 0 <= k < |ws| && 0 <= l < |ws| && k != l
                         && (IsLarge(ws[k], large) || IsLarge(ws[l], large)) ::
          !(Touches(ws[k].va, ws[k].size, i) && Touches(ws[l].va, ws[l].size, i)))
  }

  /** kern_pgdir as mem_init leaves it before page_init: empty but for the entry that maps itself. */
  function EmptyDirectory(kern: nat): Frame {
    ZeroFrame()[UVPT_PDX := Word(kern, PU)]
  }

  /** kern_pgdir after the first `n` windows: entries touched by none are empty, and only windows of 4 MB pages have
      made entries of 4 MB pages. */
  ghost predicate DirectoryAfter(ws: seq<Window>, n: nat, dir: Frame, large: bool)
    requires n <= |ws|
  {
    forall i: nat | i < NPTENTRIES && i != UVPT_PDX ::
      && ((forall k | 0 <= k < n :: !Touches(ws[k].va, ws[k].size, i)) ==> dir[i] == ZERO)
      && ((forall k | 0 <= k < n && IsLarge(ws[k], large) :: !Touches(ws[k].va, ws[k].size, i)) ==> !dir[i].flags.ps)
  }

  lemma DirectoryEmpty(ws: seq<Window>, kern: nat, large: bool)
    ensures DirectoryAfter(ws, 0, EmptyDirectory(kern), large)
  {
  }

  lemma NextMappable(ws: seq<Window>, n: nat, dir: Frame, large: bool)
    requires n < |ws| && Fit(ws, large) && DirectoryAfter(ws, n, dir, large)
    ensures Mappable(dir, ws[n].va, ws[n].size, IsLarge(ws[n], large))
  {
    forall i | 0 <= i < NPTENTRIES && Touches(ws[n].va, ws[n].size, i)
      ensures i != UVPT_PDX && !dir[i].flags.ps && (IsLarge(ws[n], large) ==> !dir[i].flags.p)
    {
    }
  }

  lemma NextDirectory(ws: seq<Window>, n: nat, dir: Frame, dir': Frame, large: bool)
    requires n < |ws| && DirectoryAfter(ws, n, dir, large)
    requires DirectoryKept(dir, dir', ws[n].va, ws[n].size, IsLarge(ws[n], large))
    ensures DirectoryAfter(ws, n + 1, dir', large)
  {
    forall i: nat | i < NPTENTRIES && i != UVPT_PDX
      ensures (forall k | 0 <= k < n + 1 :: !Touches(ws[k].va, ws[k].size, i)) ==> dir'[i] == ZERO
      ensures (forall k | 0 <= k < n + 1 && IsLarge(ws[k], large) :: !Touches(ws[k].va, ws[k].size, i)) ==>
        !dir'[i].flags.ps
    {
      if forall k | 0 <= k < n + 1 :: !Touches(ws[k].va, ws[k].size, i) {
        assert !Touches(ws[n].va, ws[n].size, i);
      }
    }
  }

  /** kern_pgdir translates every page outside the UVPT window as the windows say. */
  ghost predicate MappedAs(ws: seq<Window>, m: seq<Frame>, kern: nat) {
    && kern < |m|
    && forall v: Page | v.i < NPTENTRIES && v.j < NPTENTRIES && v.i != UVPT_PDX :: Walk(m, kern, v) == Described(ws, v)
  }

  lemma NothingMapped(m: seq<Frame>, kern: nat)
    requires kern < |m| && m[kern] == EmptyDirectory(kern)
    ensures MappedAs([], m, kern)
  {
  }

  lemma OneMoreWindow(ws: seq<Window>, w: Window, m: seq<Frame>, m': seq<Frame>, kern: nat)
    requires MappedAs(ws, m, kern) && Mapped(m, m', kern, w.va, w.va + w.size, w.pa, w.perm)
    ensures MappedAs(ws + [w], m', kern)
  {
    hide Walk;
    assert (ws + [w])[..|ws|] == ws;
  }

  lemma OneMoreNeeded(ws: seq<Window>, n: nat)
    requires n < |ws|
    ensures ws[..n + 1] == ws[..n] + [ws[n]]
    ensures TablesNeeded(ws[..n + 1]) == TablesNeeded(ws[..n]) + TablesFor(ws[n].va, ws[n].size)
  {
    hide TablesFor;
    AnotherWindow(ws[..n], ws[n]);
  }

  lemma AnotherWindow(ws: seq<Window>, w: Window)
    ensures TablesNeeded(ws + [w]) == TablesNeeded(ws) + TablesFor(w.va, w.size)
    ensures forall v :: Described(ws + [w], v) ==
              if Covers(w, Number(v)) then Some(Promised(Number(v), w.va, w.pa, w.perm)) else Described(ws, v)
  {
    hide TablesFor;
    assert (ws + [w])[..|ws|] == ws;
  }

  lemma {:induction false} FirstNeedFewer(ws: seq<Window>, n: nat)
    requires n <= |ws|
    ensures TablesNeeded(ws[..n]) <= TablesNeeded(ws)
    decreases |ws| - n
  {
    if n < |ws| {
      OneMoreNeeded(ws, n);
      FirstNeedFewer(ws, n + 1);
    } else {
      assert ws[..n] == ws;
    }
  }

  /** Mapping the windows one after another. */
  method MapWindows(k: Kernel, ws: seq<Window>, large: bool) returns (ok: bool)
    requires k.PageInv(NOTHING) && NoEnvs(k.g) && Fit(ws, large)
    requires k.boot.kern < |k.mem| && k.mem[k.boot.kern] == EmptyDirectory(k.boot.kern)
    modifies k`pages, k`pageFreeList, k`mem, k`free, k`g
    ensures k.PageInv(NOTHING) && NoEnvs(k.g)
    ensures ok ==> MappedAs(ws, k.mem, k.boot.kern) && CountsKept(old(k.C()), k.C())
    ensures ok ==> k.boot.kern < |k.mem| && DirectoryAfter(ws, |ws|, k.mem[k.boot.kern], large)
    ensures ok ==> |k.free| >= |old(k.free)| - TablesNeeded(ws)
    ensures (forall w | w in ws :: Aligned(w.va, w.size, w.pa)) && |old(k.free)| >= TablesNeeded(ws) ==> ok
  {
    hide Inv, Coherent, NoEnvs, Mapped, MappedAs, CountsKept, DirectoryKept, DirectoryAfter, TablesFor, TablesNeeded,
         Mappable;
    NothingMapped(k.mem, k.boot.kern);
    DirectoryEmpty(ws, k.boot.kern, large);
    CountsKept0(k.C());
    assert TablesNeeded(ws[..0]) == 0 by { NoneNeeded(ws); }
    for n := 0 to |ws|
      invariant k.PageInv(NOTHING) && NoEnvs(k.g) && k.boot.kern < |k.mem|
      invariant MappedAs(ws[..n], k.mem, k.boot.kern) && DirectoryAfter(ws, n, k.mem[k.boot.kern], large)
      invariant CountsKept(old(k.C()), k.C()) && |k.free| >= |old(k.free)| - TablesNeeded(ws[..n])
    {
      ghost var c, m := k.C(), k.mem;
      OneMoreNeeded(ws, n);
      FirstNeedFewer(ws, n + 1);
      NextMappable(ws, n, k.mem[k.boot.kern], large);
      assert ws[n] in ws;
      var w := ws[n];
      ok := BootMapRegion(k, w.va, w.size, w.pa, w.perm, large);
      if !ok {
        return;
      }
      OneMoreWindow(ws[..n], ws[n], m, k.mem, k.boot.kern);
      NextDirectory(ws, n, m[k.boot.kern], k.mem[k.boot.kern], large);
      CountsKeptTransitive(old(k.C()), c, k.C());
    }
    assert ws[..|ws|] == ws;
    return true;
  }

  lemma NoneNeeded(ws: seq<Window>)
    ensures TablesNeeded(ws[..0]) == 0
  {
  }

  const KERNEL_RW := NO_FLAGS.(p := true, w := true)

  /** The stack of CPU `i`; there is a gap below it. */
  function StackWindow(i: nat, pa: nat): Window {
    Window(if i < NCPU then KSTACKTOP - KSTKSIZE - i * (KSTKSIZE + KSTKGAP) else UENVS, KSTKSIZE, pa, KERNEL_RW)
  }

  function StackWindows(kstacks: seq<nat>): seq<Window> {
    seq(|kstacks|, i requires 0 <= i < |kstacks| => StackWindow(i, kstacks[i]))
  }

  /** The first calls of boot_map_region in mem_init: pages[] and envs[], read-only for the user, the boot stack, and
      the window on physical memory. */
  function FirstWindows(npages: nat, pagesPa: nat, envsPa: nat, stackPa: nat): seq<Window> {
    [ Window(UPAGES, npages * PAGEINFO_SIZE, pagesPa, PU),
      Window(UENVS, NENV * ENV_SIZE, envsPa, PU),
      Window(KSTACKTOP - KSTKSIZE, KSTKSIZE, stackPa, KERNEL_RW),
      Window(KERNBASE, ADDRESS_LIMIT - KERNBASE, 0, KERNEL_RW) ]
  }

  /** All of them: mem_init_mp then maps the stacks of the CPUs, that of CPU 0 in place of the boot stack. */
  function KernelWindows(npages: nat, pagesPa: nat, envsPa: nat, stackPa: nat, kstacks: seq<nat>): seq<Window> {
    FirstWindows(npages, pagesPa, envsPa, stackPa) + StackWindows(kstacks)
  }

  /** What the linker and boot_alloc promise of the physical addresses. */
  predicate PlacesOk(npages: nat, pagesPa: nat, envsPa: nat, stackPa: nat, kstacks: seq<nat>) {
    && npages * PAGEINFO_SIZE < PTSIZE && |kstacks| == NCPU
    && pagesPa + PTSIZE <= ADDRESS_LIMIT && envsPa + PTSIZE <= ADDRESS_LIMIT && stackPa + KSTKSIZE <= ADDRESS_LIMIT
    && forall i | 0 <= i < |kstacks| :: kstacks[i] + KSTKSIZE <= ADDRESS_LIMIT
  }

  lemma StackTouches(i: nat, pa: nat, j: nat)
    requires i < NCPU
    ensures Touches(StackWindow(i, pa).va, KSTKSIZE, j) <==> j == 959
  {
  }

  lemma FirstTouch(npages: nat, j: nat)
    requires npages * PAGEINFO_SIZE < PTSIZE
    ensures Touches(UPAGES, npages * PAGEINFO_SIZE, j) ==> j == 956
    ensures Touches(UENVS, NENV * ENV_SIZE, j) <==> j == 955
    ensures Touches(KSTACKTOP - KSTKSIZE, KSTKSIZE, j) <==> j == 959
    ensures Touches(KERNBASE, ADDRESS_LIMIT - KERNBASE, j) <==> 960 <= j <= 1023
  {
  }

  /** The windows of mem_init fit, in either variant. */
  lemma KernelWindowsFit(npages: nat, pagesPa: nat, envsPa: nat, stackPa: nat, kstacks: seq<nat>, large: bool)
    requires PlacesOk(npages, pagesPa, envsPa, stackPa, kstacks)
    ensures Fit(KernelWindows(npages, pagesPa, envsPa, stackPa, kstacks), large)
  {
    hide Touches;
    var ws := KernelWindows(npages, pagesPa, envsPa, stackPa, kstacks);
    forall k | 0 <= k < |ws|
      ensures Placed(ws[k].va, ws[k].size, ws[k].pa)
      ensures forall j: nat | Touches(ws[k].va, ws[k].size, j) ::
        if k == 3 then j >= 960 else 955 <= j <= 959 && j != UVPT_PDX
      ensures IsLarge(ws[k], large) ==> k == 3
    {
      forall j: nat | Touches(ws[k].va, ws[k].size, j)
        ensures if k == 3 then j >= 960 else 955 <= j <= 959 && j != UVPT_PDX
      {
        FirstTouch(npages, j);
        if k >= 4 {
          StackTouches(k - 4, kstacks[k - 4], j);
        }
      }
    }
  }

  /** How many tables all the windows need at most. */
  const KERNEL_TABLES := 67 + NCPU

  lemma KernelTables(npages: nat, pagesPa: nat, envsPa: nat, stackPa: nat, kstacks: seq<nat>)
    requires PlacesOk(npages, pagesPa, envsPa, stackPa, kstacks)
    ensures TablesNeeded(KernelWindows(npages, pagesPa, envsPa, stackPa, kstacks)) <= KERNEL_TABLES
  {
    hide TablesFor, TablesNeeded;
    var first := FirstWindows(npages, pagesPa, envsPa, stackPa);
    FirstTables(npages);
    NoneNeeded([]);
    AnotherWindow([], first[0]);
    AnotherWindow([first[0]], first[1]);
    AnotherWindow([first[0], first[1]], first[2]);
    AnotherWindow([first[0], first[1], first[2]], first[3]);
    assert [] + [first[0]] == [first[0]] && [first[0]] + [first[1]] == [first[0], first[1]];
    assert [first[0], first[1]] + [first[2]] == [first[0], first[1], first[2]];
    assert [first[0], first[1], first[2]] + [first[3]] == first;
    StackTables(first, kstacks);
  }

  lemma FirstTables(npages: nat)
    requires npages * PAGEINFO_SIZE < PTSIZE
    ensures TablesFor(UPAGES, npages * PAGEINFO_SIZE) <= 1 && TablesFor(UENVS, NENV * ENV_SIZE) == 1
    ensures TablesFor(KSTACKTOP - KSTKSIZE, KSTKSIZE) == 1 && TablesFor(KERNBASE, ADDRESS_LIMIT - KERNBASE) == 64
  {
  }

  lemma StackTable(i: nat, pa: nat)
    requires i < NCPU
    ensures TablesFor(StackWindow(i, pa).va, KSTKSIZE) == 1
  {
  }

  lemma {:induction false} StackTables(first: seq<Window>, kstacks: seq<nat>)
    requires |kstacks| <= NCPU
    ensures TablesNeeded(first + StackWindows(kstacks)) == TablesNeeded(first) + |kstacks|
    decreases |kstacks|
  {
    hide TablesFor, TablesNeeded;
    var n := |kstacks|;
    if n == 0 {
      assert first + StackWindows(kstacks) == first;
    } else {
      LastStack(first, kstacks);
      StackTable(n - 1, kstacks[n - 1]);
      StackTables(first, kstacks[..n - 1]);
      AnotherWindow(first + StackWindows(kstacks[..n - 1]), StackWindow(n - 1, kstacks[n - 1]));
    }
  }

  lemma LastStack(first: seq<Window>, kstacks: seq<nat>)
    requires kstacks != []
    ensures var n := |kstacks| - 1;
      first + StackWindows(kstacks) == first + StackWindows(kstacks[..n]) + [StackWindow(n, kstacks[n])]
  {
  }

  /** The translation that the stack of CPU `i` gives a page. */
  function InStack(i: nat, pa: nat, n: nat): Option<Translation>
    requires Covers(StackWindow(i, pa), n)
  {
    Some(Translation(PGNUM(pa) + n - PGNUM(StackWindow(i, pa).va), true, false))
  }

  lemma StacksApart(i: nat, pa: nat, j: nat, pa': nat, n: nat)
    requires i < NCPU && j < NCPU && Covers(StackWindow(i, pa), n) && Covers(StackWindow(j, pa'), n)
    ensures i == j
  {
  }

  /** The stacks decide where one of them covers the page; they do not overlap. */
  lemma {:induction false} StacksDecide(first: seq<Window>, kstacks: seq<nat>, v: Page)
    requires |kstacks| <= NCPU
    ensures forall i | 0 <= i < |kstacks| && Covers(StackWindow(i, kstacks[i]), Number(v)) ::
              Described(first + StackWindows(kstacks), v) == InStack(i, kstacks[i], Number(v))
    ensures (forall i | 0 <= i < |kstacks| :: !Covers(StackWindow(i, kstacks[i]), Number(v))) ==>
              Described(first + StackWindows(kstacks), v) == Described(first, v)
    decreases |kstacks|
  {
    hide Described, Number;
    var n := |kstacks|;
    if n == 0 {
      assert first + StackWindows(kstacks) == first;
    } else {
      var before := kstacks[..n - 1];
      StacksDecide(first, before, v);
      LastStack(first, kstacks);
      AnotherWindow(first + StackWindows(before), StackWindow(n - 1, kstacks[n - 1]));
      forall i | 0 <= i < n && Covers(StackWindow(i, kstacks[i]), Number(v))
        ensures Described(first + StackWindows(kstacks), v) == InStack(i, kstacks[i], Number(v))
      {
        if i < n - 1 {
          assert before[i] == kstacks[i];
          if Covers(StackWindow(n - 1, kstacks[n - 1]), Number(v)) {
            StacksApart(i, kstacks[i], n - 1, kstacks[n - 1], Number(v));
          }
        }
      }
    }
  }

  /** The kernel's address space as the picture in inc/memlayout.h has it: all of physical memory and the stacks for the
      kernel only, pages[] and envs[] read-only for the user, and nothing anywhere else, so nothing below the stacks. */
  lemma KernelLayout(npages: nat, pagesPa: nat, envsPa: nat, stackPa: nat, kstacks: seq<nat>, v: Page, i: nat)
    requires PlacesOk(npages, pagesPa, envsPa, stackPa, kstacks) && v.i < NPTENTRIES && v.j < NPTENTRIES
    ensures var n := Number(v); var t := Described(KernelWindows(npages, pagesPa, envsPa, stackPa, kstacks), v);
      if n >= PGNUM(KERNBASE) then t == Some(Translation(n - PGNUM(KERNBASE), true, false))
      else if i < NCPU && Covers(StackWindow(i, kstacks[i]), n) then t == InStack(i, kstacks[i], n)
      else if PGNUM(UPAGES) <= n < PGNUM(UPAGES + npages * PAGEINFO_SIZE) then
        t == Some(Translation(PGNUM(pagesPa) + n - PGNUM(UPAGES), false, true))
      else if PGNUM(UENVS) <= n < PGNUM(UENVS + NENV * ENV_SIZE) then
        t == Some(Translation(PGNUM(envsPa) + n - PGNUM(UENVS), false, true))
      else (forall j | 0 <= j < NCPU :: !Covers(StackWindow(j, kstacks[j]), n)) ==> t == None
  {
    hide Described;
    var n := Number(v);
    var first := FirstWindows(npages, pagesPa, envsPa, stackPa);
    StacksDecide(first, kstacks, v);
    FirstDecide(npages, pagesPa, envsPa, stackPa, v);
    BootStackReplaced(stackPa, kstacks[0], n);
    assert KernelWindows(npages, pagesPa, envsPa, stackPa, kstacks) == first + StackWindows(kstacks);
    hide Number;
    assert n < PGNUM(ADDRESS_LIMIT);
  }

  /** The same by address, over all pages: memory from 0xF0000000; eight stacks of eight pages below it, each with eight
      unmapped pages under it; pages[] at 0xEF000000 and the 31 pages of envs[] at 0xEEC00000; and nothing else. */
  lemma KernelAddresses(npages: nat, pagesPa: nat, envsPa: nat, stackPa: nat, kstacks: seq<nat>, v: Page)
    requires PlacesOk(npages, pagesPa, envsPa, stackPa, kstacks) && v.i < NPTENTRIES && v.j < NPTENTRIES
    ensures
      var n, t := v.i * 1024 + v.j, Described(KernelWindows(npages, pagesPa, envsPa, stackPa, kstacks), v);
      var depth: int := 0xF0000 - 1 - n;
      if n >= 0xF0000 then t == Some(Translation(n - 0xF0000, true, false))
      else if n >= 0xF0000 - 8 * 16 then
        var i := depth / 16;
        |kstacks| == 8 && 0 <= i < 8
        && t == if depth % 16 < 8 then Some(Translation(kstacks[i] / 0x1000 + 7 - depth % 16, true, false)) else None
      else if 0xEF000 <= n < 0xEF000 + npages * 8 / 0x1000 then
        t == Some(Translation(pagesPa / 0x1000 + n - 0xEF000, false, true))
      else if 0xEEC00 <= n < 0xEEC00 + 31 then t == Some(Translation(envsPa / 0x1000 + n - 0xEEC00, false, true))
      else t == None
  {
    hide Described, PlacesOk, InStack;
    var n: int := Number(v);
    StackCount(npages, pagesPa, envsPa, stackPa, kstacks);
    StackPages(kstacks, n);
    ArrayPages(npages);
    var i := if 0xF0000 - 8 * 16 <= n < 0xF0000 then (0xF0000 - 1 - n) / 16 else 8;
    KernelLayout(npages, pagesPa, envsPa, stackPa, kstacks, v, i);
    hide KernelWindows, PGNUM;
    assert 0xF0000 - 8 * 16 <= n < 0xF0000 ==>
      forall j | 0 <= j < NCPU && j != i :: !(0 <= 0xF0000 - 1 - n - 16 * j < 8);
  }

  lemma StackCount(npages: nat, pagesPa: nat, envsPa: nat, stackPa: nat, kstacks: seq<nat>)
    requires PlacesOk(npages, pagesPa, envsPa, stackPa, kstacks)
    ensures |kstacks| == NCPU && npages * PAGEINFO_SIZE < PTSIZE
  {
  }

  lemma ArrayPages(npages: nat)
    ensures PGNUM(UPAGES + npages * PAGEINFO_SIZE) == 0xEF000 + npages * 8 / 0x1000
    ensures PGNUM(UENVS + NENV * ENV_SIZE) == 0xEEC00 + 31
  {
  }

  /** Where the stacks are, counted in pages from the top. */
  lemma StackPages(kstacks: seq<nat>, n: nat)
    requires |kstacks| == NCPU
    ensures var depth: int := 0xF0000 - 1 - n;
      && (forall j | 0 <= j < NCPU :: Covers(StackWindow(j, kstacks[j]), n) <==> 0 <= depth - 16 * j < 8)
      && (forall j | 0 <= j < NCPU && Covers(StackWindow(j, kstacks[j]), n) ::
            InStack(j, kstacks[j], n) == Some(Translation(kstacks[j] / 0x1000 + 7 - (depth - 16 * j), true, false)))
  {
  }

  lemma BootStackReplaced(stackPa: nat, pa: nat, n: nat)
    ensures Covers(Window(KSTACKTOP - KSTKSIZE, KSTKSIZE, stackPa, KERNEL_RW), n) <==> Covers(StackWindow(0, pa), n)
  {
  }

  /** Before the stacks: the window on physical memory, the boot stack, envs[] and pages[], which do not overlap. */
  lemma FirstDecide(npages: nat, pagesPa: nat, envsPa: nat, stackPa: nat, v: Page)
    ensures var first := FirstWindows(npages, pagesPa, envsPa, stackPa); var n := Number(v);
      Described(first, v) ==
        if Covers(first[3], n) then Some(Promised(n, KERNBASE, 0, KERNEL_RW))
        else if Covers(first[2], n) then Some(Promised(n, KSTACKTOP - KSTKSIZE, stackPa, KERNEL_RW))
        else if Covers(first[1], n) then Some(Promised(n, UENVS, envsPa, PU))
        else if Covers(first[0], n) then Some(Promised(n, UPAGES, pagesPa, PU))
        else None
  {
    hide Number;
    var first := FirstWindows(npages, pagesPa, envsPa, stackPa);
    AnotherWindow([], first[0]);
    AnotherWindow([first[0]], first[1]);
    AnotherWindow([first[0], first[1]], first[2]);
    AnotherWindow([first[0], first[1], first[2]], first[3]);
    assert [] + [first[0]] == [first[0]] && [first[0]] + [first[1]] == [first[0], first[1]];
    assert [first[0], first[1]] + [first[2]] == [first[0], first[1], first[2]];
    assert [first[0], first[1], first[2]] + [first[3]] == first;
  }

  const MMIOBASE := ULIM
  const MMIOLIM := MMIOBASE + PTSIZE

  /** A device's memory: not cached. */
  const DEVICE := KERNEL_RW.(pwt := true, pcd := true)

  /** What the comments in mmio_map_region promise to refuse: a reservation that would overflow MMIOLIM. */
  predicate Overflows(base: nat, size: nat) { base + (size + PGSIZE - 1) / PGSIZE * PGSIZE > MMIOLIM }

  /** What it refuses, in 32-bit arithmetic. */
  predicate OverflowSeen(base: nat, size: nat) { (base + RoundUp32(size)) % ADDRESS_LIMIT > MMIOLIM }

  /** An overflow is seen exactly if the end of the reservation is below 2^32. */
  lemma OverflowSeenExactly(base: nat, size: nat)
    requires MMIOBASE <= base <= MMIOLIM && size < ADDRESS_LIMIT
    ensures OverflowSeen(base, size) <==>
      Overflows(base, size) && base + (size + PGSIZE - 1) / PGSIZE * PGSIZE < ADDRESS_LIMIT
  {
  }

  /** As many bytes as lie between MMIOBASE and 2^32, and all that are more: not refused. */
  lemma OverflowUnseen(size: nat)
    requires ADDRESS_LIMIT - MMIOBASE <= size < ADDRESS_LIMIT
    ensures Overflows(MMIOBASE, size) && !OverflowSeen(MMIOBASE, size)
  {
    OverflowSeenExactly(MMIOBASE, size);
  }

  /** mmio_map_region; `base` is its static variable, `next` the value it leaves there. `ok` is false when it panics. */
  method MmioMapRegion(k: Kernel, base: nat, pa: nat, size: nat, large: bool) returns (ok: bool, mapped: nat, next: nat)
    requires k.PageInv(NOTHING) && NoEnvs(k.g) && k.boot.kern < |k.mem|
    requires MMIOBASE <= base <= MMIOLIM && base % PGSIZE == 0
    requires base + size + PGSIZE <= ADDRESS_LIMIT && pa + RoundUp32(size) <= ADDRESS_LIMIT && pa < ADDRESS_LIMIT
    requires UsesLarge(RoundUp32(size), large) ==> base % PTSIZE == pa % PTSIZE
    requires Mappable(k.mem[k.boot.kern], MMIOBASE, PTSIZE, UsesLarge(RoundUp32(size), large))
    modifies k`pages, k`pageFreeList, k`mem, k`free, k`g
    ensures k.PageInv(NOTHING) && NoEnvs(k.g) && k.boot.kern < |k.mem| == |old(k.mem)|
    ensures Overflows(base, size) ==> !ok
    ensures ok ==> mapped == base && base + size <= next <= MMIOLIM && next % PGSIZE == 0
    ensures ok ==> Mapped(old(k.mem), k.mem, k.boot.kern, base, next, pa, DEVICE) && CountsKept(old(k.C()), k.C())
    ensures ok ==> next == base + RoundUp32(size) && |k.free| >= |old(k.free)| - TablesFor(base, RoundUp32(size))
    ensures !Overflows(base, size) && pa % PGSIZE == 0 && |old(k.free)| >= 1 ==> ok
  {
    hide Inv, Coherent, NoEnvs, Mapped, CountsKept, DirectoryKept, Mappable, TablesFor;
    DeviceRegion(base, size);
    var multSize := RoundUp32(size);
    if (base + multSize) % ADDRESS_LIMIT > MMIOLIM {
      return false, 0, base;
    }
    DeviceMappable(k.mem[k.boot.kern], base, multSize, UsesLarge(multSize, large));
    ok := BootMapRegion(k, base, multSize, pa, DEVICE, large);
    return ok, base, base + multSize;
  }

  lemma DeviceRegion(base: nat, size: nat)
    requires MMIOBASE <= base <= MMIOLIM && base % PGSIZE == 0 && base + size + PGSIZE <= ADDRESS_LIMIT
    ensures var multSize := RoundUp32(size);
      && size <= multSize < size + PGSIZE && multSize % PGSIZE == 0 && (base + multSize) % PGSIZE == 0
      && (Overflows(base, size) <==> base + multSize > MMIOLIM)
      && base + multSize < ADDRESS_LIMIT
      && (base + multSize <= MMIOLIM ==> TablesFor(base, multSize) <= 1)
  {
  }

  lemma DeviceMappable(dir: Frame, base: nat, size: nat, large: bool)
    requires Mappable(dir, MMIOBASE, PTSIZE, large) && MMIOBASE <= base && base + size <= MMIOLIM
    ensures Mappable(dir, base, size, large)
  {
  }

  /** The entry of the devices is none of those the kernel's windows touch. */
  lemma DeviceWindowFree(npages: nat, pagesPa: nat, envsPa: nat, stackPa: nat, kstacks: seq<nat>)
    requires PlacesOk(npages, pagesPa, envsPa, stackPa, kstacks)
    ensures forall w | w in KernelWindows(npages, pagesPa, envsPa, stackPa, kstacks) ::
      !Touches(w.va, w.size, MMIOBASE / PTSIZE)
  {
    hide Touches;
    var ws := KernelWindows(npages, pagesPa, envsPa, stackPa, kstacks);
    forall k | 0 <= k < |ws| ensures !Touches(ws[k].va, ws[k].size, MMIOBASE / PTSIZE) {
      FirstTouch(npages, MMIOBASE / PTSIZE);
      if k >= 4 {
        StackTouches(k - 4, kstacks[k - 4], MMIOBASE / PTSIZE);
      }
    }
  }

  lemma DeviceEntry(ws: seq<Window>, dir: Frame, large: bool)
    requires DirectoryAfter(ws, |ws|, dir, large)
    requires forall w | w in ws :: !Touches(w.va, w.size, MMIOBASE / PTSIZE)
    ensures Mappable(dir, MMIOBASE, PTSIZE, true) && Mappable(dir, MMIOBASE, PTSIZE, false)
  {
    var i := MMIOBASE / PTSIZE;
    assert forall k | 0 <= k < |ws| :: ws[k] in ws;
    assert dir[i] == ZERO;
  }
}

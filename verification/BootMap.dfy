/** boot_map_region in both variants, with 4 KB pages and with 4 MB pages, and check_va2pa (kern/pmap.c). */
module BootMap {
  import opened Layout
  import opened Graph
  import opened PageState
  import opened Tables
  import opened Steps
  import opened Pmap
  import opened Tlb

  /** The page at `va`, by directory and table index. */
  function PageOf(va: nat): Page
    requires va < ADDRESS_LIMIT
  {
    Page(PDX(va), PTX(va))
  }

  /** The page number of (i, j). */
  function Number(v: Page): nat { v.i * NPTENTRIES + v.j }

  /** The translation boot_map_region promises for page number `n` of a region that starts at `va` and maps to `pa`. */
  function Promised(n: nat, va: nat, pa: nat, perm: Flags): Translation
    requires n >= PGNUM(va)
  {
    Translation(PGNUM(pa) + n - PGNUM(va), perm.w, perm.u, perm.pwt, perm.pcd)
  }

  /** kern_pgdir maps [va, end) to [pa, pa + end - va) with `perm`, and everything else as before; the UVPT window,
      which shows the tables themselves, aside. */
  ghost predicate Mapped(m0: seq<Frame>, m: seq<Frame>, kern: nat, va: nat, end: nat, pa: nat, perm: Flags) {
    && kern < |m0| == |m|
    && forall v: Page | v.i < NPTENTRIES && v.j < NPTENTRIES && v.i != UVPT_PDX ::
         Walk(m, kern, v) ==
           if PGNUM(va) <= Number(v) < PGNUM(end) then Some(Promised(Number(v), va, pa, perm)) else Walk(m0, kern, v)
  }

  /** Only the pages between `lo` and `hi` are mapped anew, to consecutive physical pages from `pn` on. */
  ghost predicate Changed(m: seq<Frame>, m': seq<Frame>, kern: nat, lo: nat, hi: nat, pn: nat, perm: Flags) {
    && kern < |m| == |m'|
    && forall v: Page | v.i < NPTENTRIES && v.j < NPTENTRIES && v.i != UVPT_PDX ::
         Walk(m', kern, v) ==
           if lo <= Number(v) < hi then Some(Translation(pn + Number(v) - lo, perm.w, perm.u, perm.pwt, perm.pcd))
           else Walk(m, kern, v)
  }

  lemma MappedGrows(m0: seq<Frame>, m: seq<Frame>, m': seq<Frame>, kern: nat, va: nat, mid: nat, end: nat, pa: nat,
                    perm: Flags)
    requires Mapped(m0, m, kern, va, mid, pa, perm) && va <= mid <= end
    requires va % PGSIZE == mid % PGSIZE == end % PGSIZE == pa % PGSIZE == 0
    requires Changed(m, m', kern, PGNUM(mid), PGNUM(end), PGNUM(pa) + PGNUM(mid) - PGNUM(va), perm)
    ensures Mapped(m0, m', kern, va, end, pa, perm)
  {
    hide Walk;
  }

  lemma MappedNothing(m: seq<Frame>, kern: nat, va: nat, pa: nat, perm: Flags)
    requires kern < |m|
    ensures Mapped(m, m, kern, va, va, pa, perm)
  {
  }

  /** Pages of different indexes have different numbers. */
  lemma NumberOf(va: nat, v: Page)
    requires va < ADDRESS_LIMIT && v.i < NPTENTRIES && v.j < NPTENTRIES
    ensures Number(PageOf(va)) == PGNUM(va)
    ensures Number(v) == PGNUM(va) <==> v == PageOf(va)
  {
    IndexesIdentifyPage(va, va);
  }

  /** Writing an entry of a table of the kernel keeps the page invariant: no environment's table is touched. */
  lemma KernelTableWriteKeeps(c: Counts, g: Graph, m: seq<Frame>, b: Boot, h: Held, i: nat, j: nat, w: Word)
    requires Inv(c, g, m, b, h) && Kern(i) in g && j < NPTENTRIES
    ensures g[Kern(i)].addr < |m|
    ensures var t := g[Kern(i)].addr; Inv(c, g, m[t := m[t][j := w]], b, h)
  {
    hide CountInv;
    TargetsExist(g, b);
    OtherTablesUntouched(g, b, Kern(i));
  }

  /** Storing `w` in entry j of kernel table i maps one page. */
  lemma KernelStoreMaps(c: Counts, g: Graph, m: seq<Frame>, b: Boot, h: Held, i: nat, j: nat, pn: nat, perm: Flags)
    requires Inv(c, g, m, b, h) && Kern(i) in g && j < NPTENTRIES && g[Kern(i)].addr < |m|
    ensures i < NPTENTRIES
    ensures var t := g[Kern(i)].addr; var n := Number(Page(i, j));
      Changed(m, m[t := m[t][j := Word(pn, perm.(p := true))]], b.kern, n, n + 1, pn, perm)
  {
    hide CountInv, Match, Walk;
    KernelEntry(g, m, b, i);
    TargetsExist(g, b);
    var t := g[Kern(i)].addr;
    var m' := m[t := m[t][j := Word(pn, perm.(p := true))]];
    KernIsRoot(g, b);
    forall v: Page | v.i < NPTENTRIES && v.j < NPTENTRIES && v.i != UVPT_PDX && v != Page(i, j)
      ensures Walk(m', b.kern, v) == Walk(m, b.kern, v) && Number(v) != Number(Page(i, j))
    {
      TableOwner(g, m, b, b.kern, v.i);
      WalkSame(m, m', b.kern, v);
    }
    WalkThroughTable(m', b.kern, Page(i, j));
  }

  lemma WalkThroughTable(m: seq<Frame>, d: nat, v: Page)
    requires d < |m| && v.i < NPTENTRIES && v.j < NPTENTRIES && m[d][v.i].flags == PWU && m[d][v.i].addr < |m|
    requires m[m[d][v.i].addr][v.j].flags.p
    ensures var w := m[m[d][v.i].addr][v.j]; 
      Walk(m, d, v) == Some(Translation(w.addr, w.flags.w, w.flags.u, w.flags.pwt, w.flags.pcd))
  {
  }

  lemma KernelEntry(g: Graph, m: seq<Frame>, b: Boot, i: nat)
    requires BootOk(b) && GraphOk(g, b) && Match(g, m, b) && Kern(i) in g
    ensures USER_PDES <= i < NPTENTRIES && i != UVPT_PDX && b.kern < |m| == b.npages
    ensures m[b.kern][i] == g[Kern(i)] && g[Kern(i)].flags == PWU
  {
  }

  /** Making a missing table maps nothing. */
  lemma HangingMapsNothing(c: Counts, g: Graph, m: seq<Frame>, b: Boot, h: Held, i: nat, t: nat)
    requires Inv(c, g, m, b, h) && USER_PDES <= i < NPTENTRIES && i != UVPT_PDX && Kern(i) !in g
    requires b.kern < |m| && t < |m| && !m[b.kern][i].flags.ps && NotTable(g, b, t)
    ensures Changed(m, m[t := ZeroFrame()][b.kern := m[b.kern][i := Word(t, PWU)]], b.kern, 0, 0, 0, PWU)
  {
    hide CountInv, Match, Walk;
    var m' := m[t := ZeroFrame()][b.kern := m[b.kern][i := Word(t, PWU)]];
    KernIsRoot(g, b);
    forall v: Page | v.i < NPTENTRIES && v.j < NPTENTRIES && v.i != UVPT_PDX
      ensures Walk(m', b.kern, v) == Walk(m, b.kern, v)
    {
      if v.i == i {
        NotPresentInKernel(g, m, b, i);
        WalkNowhere(m, m', b.kern, v);
      } else {
        TableOwner(g, m, b, b.kern, v.i);
        WalkSame(m, m', b.kern, v);
      }
    }
  }

  lemma NotPresentInKernel(g: Graph, m: seq<Frame>, b: Boot, i: nat)
    requires BootOk(b) && GraphOk(g, b) && Match(g, m, b) && Kern(i) !in g && USER_PDES <= i < NPTENTRIES
    requires i != UVPT_PDX
    ensures b.kern < |m| && !RefersToTable(m[b.kern][i])
  {
  }

  lemma WalkNowhere(m: seq<Frame>, m': seq<Frame>, d: nat, v: Page)
    requires d < |m| == |m'| && v.i < NPTENTRIES && v.j < NPTENTRIES && !m[d][v.i].flags.p
    requires m'[d][v.i].flags == PWU && m'[d][v.i].addr < |m'| && m'[m'[d][v.i].addr] == ZeroFrame()
    ensures Walk(m, d, v) == None == Walk(m', d, v)
  {
  }

  /** Setting an empty entry of kern_pgdir to a 4 MB page keeps the page invariant and maps 1024 pages. */
  lemma LargePageMaps(c: Counts, g: Graph, m: seq<Frame>, b: Boot, h: Held, i: nat, pn: nat, perm: Flags)
    requires Inv(c, g, m, b, h) && USER_PDES <= i < NPTENTRIES && i != UVPT_PDX && Kern(i) !in g
    requires forall e: nat :: Dir(e) !in g
    requires pn % NPTENTRIES == 0 && b.kern < |m|
    ensures var m' := m[b.kern := m[b.kern][i := Word(pn, perm.(p := true, ps := true))]];
      Inv(c, g, m', b, h) && Changed(m, m', b.kern, i * NPTENTRIES, (i + 1) * NPTENTRIES, pn, perm)
  {
    LargePageKeeps(g, m, b, i, Word(pn, perm.(p := true, ps := true)));
    hide CountInv, Match;
    var m' := m[b.kern := m[b.kern][i := Word(pn, perm.(p := true, ps := true))]];
    KernIsRoot(g, b);
    forall v: Page | v.i < NPTENTRIES && v.j < NPTENTRIES && v.i != UVPT_PDX
      ensures i * NPTENTRIES <= Number(v) < (i + 1) * NPTENTRIES <==> v.i == i
      ensures v.i != i ==> Walk(m', b.kern, v) == Walk(m, b.kern, v)
    {
      RowOf(v, i);
      if v.i != i {
        TableOwner(g, m, b, b.kern, v.i);
        WalkSame(m, m', b.kern, v);
      }
    }
    assert LargePage(pn) == pn;
  }

  lemma RowOf(v: Page, i: nat)
    requires v.j < NPTENTRIES
    ensures i * NPTENTRIES <= Number(v) < (i + 1) * NPTENTRIES <==> v.i == i
  {
  }

  lemma LargePageKeeps(g: Graph, m: seq<Frame>, b: Boot, i: nat, w: Word)
    requires BootOk(b) && GraphOk(g, b) && Match(g, m, b) && b.kern < |m|
    requires USER_PDES <= i < NPTENTRIES && i != UVPT_PDX && Kern(i) !in g && forall e: nat :: Dir(e) !in g
    requires w.flags.ps
    ensures Match(g, m[b.kern := m[b.kern][i := w]], b)
  {
  }

  /** Pages that were not free keep their count. */
  ghost predicate CountsKept(c: Counts, c': Counts) {
    && |c.pages| == |c'.pages| && (forall p | p in c'.free :: p in c.free)
    && forall p | 0 <= p < |c.pages| && p !in c.free :: c'.pages[p].ref == c.pages[p].ref
  }

  lemma CountsKeptTransitive(c: Counts, c1: Counts, c2: Counts)
    requires CountsKept(c, c1) && CountsKept(c1, c2)
    ensures CountsKept(c, c2)
  {
  }

  lemma TableCounted(c: Counts)
    requires c.free != [] && c.free[0] < |c.pages|
    ensures CountsKept(c, Incremented(Popped(c), c.free[0]))
  {
  }

  lemma ThenMaps(m: seq<Frame>, m1: seq<Frame>, m2: seq<Frame>, kern: nat, lo: nat, hi: nat, pn: nat, perm: Flags)
    requires (m1 == m && kern < |m|) || Changed(m, m1, kern, 0, 0, 0, PWU)
    requires Changed(m1, m2, kern, lo, hi, pn, perm)
    ensures Changed(m, m2, kern, lo, hi, pn, perm)
  {
    hide Walk;
  }

  /** No environment exists yet. */
  ghost predicate NoEnvs(g: Graph) {
    forall e: nat :: Dir(e) !in g
  }

  /** One round of the loop with a 4 KB page. `ok` is false where the code stores through the null pointer that
      pgdir_walk returns when memory has run out. */
  method MapPage(k: Kernel, va: nat, pa: nat, perm: Flags) returns (ok: bool)
    requires k.PageInv(NOTHING) && NoEnvs(k.g) && UTOP <= va < ADDRESS_LIMIT && PDX(va) != UVPT_PDX
    requires k.boot.kern < |k.mem| && !k.mem[k.boot.kern][PDX(va)].flags.ps
    modifies k`pages, k`pageFreeList, k`mem, k`free, k`g
    ensures k.PageInv(NOTHING) && NoEnvs(k.g)
    ensures ok <==> Kern(PDX(va)) in old(k.g) || old(k.free) != []
    ensures ok ==> Changed(old(k.mem), k.mem, k.boot.kern, PGNUM(va), PGNUM(va) + 1, PGNUM(pa), perm)
    ensures ok ==> Kern(PDX(va)) in k.g && CountsKept(old(k.C()), k.C())
    ensures ok ==> forall i: nat | Kern(i) in old(k.g) :: Kern(i) in k.g
    ensures ok ==> |k.free| >= |old(k.free)| - (if Kern(PDX(va)) in old(k.g) then 0 else 1)
    ensures |k.mem| == |old(k.mem)|
    ensures ok ==> forall i | 0 <= i < NPTENTRIES && i != PDX(va) :: k.mem[k.boot.kern][i] == old(k.mem)[k.boot.kern][i]
  {
    hide Inv, Coherent, Changed;
    ghost var i, j := PDX(va), PTX(va);
    Sizes(k.C(), k.g, k.mem, k.boot, NOTHING);
    TableIsFree(k.C(), k.g, k.mem, k.boot, i);
    NumberOf(va, PageOf(va));
    var pte := k.PgdirWalkCreate(k.boot.kern, va, Kern(i), NOTHING);
    if pte == None {
      return false;
    }
    ghost var m1 := k.mem;
    if Kern(i) !in old(k.g) {
      HangingMapsNothing(old(k.C()), old(k.g), old(k.mem), k.boot, NOTHING, i, old(k.free)[0]);
      TableCounted(old(k.C()));
    }
    KernelTableWriteKeeps(k.C(), k.g, k.mem, k.boot, NOTHING, i, j, Word(PGNUM(pa), perm.(p := true)));
    KernelStoreMaps(k.C(), k.g, k.mem, k.boot, NOTHING, i, j, PGNUM(pa), perm);
    var Loc(t, jj) := pte.value;
    k.mem := k.mem[t := k.mem[t][jj := Word(PGNUM(pa), perm.(p := true))]];
    ThenMaps(old(k.mem), m1, k.mem, k.boot.kern, PGNUM(va), PGNUM(va) + 1, PGNUM(pa), perm);
    return true;
  }

  /** The page a missing table would get is no table yet; an existing table is not kern_pgdir. */
  lemma TableIsFree(c: Counts, g: Graph, m: seq<Frame>, b: Boot, i: nat)
    requires Inv(c, g, m, b, NOTHING)
    ensures c.free != [] ==> c.free[0] < |c.pages| == |m| && NotTable(g, b, c.free[0])
    ensures Kern(i) in g ==> g[Kern(i)].addr != b.kern
    ensures b.kern !in c.free
  {
    Sizes(c, g, m, b, NOTHING);
    if c.free != [] {
      assert c.free[0] in c.free;
    }
  }

  /** One round with a 4 MB page. */
  method MapLargePage(k: Kernel, va: nat, pa: nat, perm: Flags)
    requires k.PageInv(NOTHING) && NoEnvs(k.g) && UTOP <= va < ADDRESS_LIMIT && PDX(va) != UVPT_PDX
    requires va % PTSIZE == 0 == pa % PTSIZE && k.boot.kern < |k.mem| && !k.mem[k.boot.kern][PDX(va)].flags.p
    modifies k`mem
    ensures k.PageInv(NOTHING)
    ensures Changed(old(k.mem), k.mem, k.boot.kern, PGNUM(va), PGNUM(va) + NPTENTRIES, PGNUM(pa), perm)
    ensures |k.mem| == |old(k.mem)|
    ensures forall i | 0 <= i < NPTENTRIES && i != PDX(va) :: k.mem[k.boot.kern][i] == old(k.mem)[k.boot.kern][i]
  {
    hide Inv, Changed;
    AlignedPages(va);
    AlignedPages(pa);
    EmptyHasNoTable(k.C(), k.g, k.mem, k.boot, PDX(va));
    LargePageMaps(k.C(), k.g, k.mem, k.boot, NOTHING, PDX(va), PGNUM(pa), perm);
    k.mem := k.mem[k.boot.kern := k.mem[k.boot.kern][PDX(va) := Word(PGNUM(pa), perm.(p := true, ps := true))]];
  }

  lemma AlignedPages(a: nat)
    requires a % PTSIZE == 0
    ensures PGNUM(a) == a / PTSIZE * NPTENTRIES && PGNUM(a) % NPTENTRIES == 0
  {
  }

  lemma EmptyHasNoTable(c: Counts, g: Graph, m: seq<Frame>, b: Boot, i: nat)
    requires Inv(c, g, m, b, NOTHING) && USER_PDES <= i < NPTENTRIES && b.kern < |m| && !m[b.kern][i].flags.p
    ensures Kern(i) !in g
  {
  }

  lemma TablesAreSmall(c: Counts, g: Graph, m: seq<Frame>, b: Boot)
    requires Inv(c, g, m, b, NOTHING)
    ensures b.kern < |m| && |m| == b.npages == |c.pages|
    ensures forall i: nat | Kern(i) in g :: i < NPTENTRIES && !m[b.kern][i].flags.ps
  {
  }

  /** The directory entries a region touches. */
  predicate Touches(va: nat, size: nat, i: nat) {
    size > 0 && va / PTSIZE <= i <= (va + size - 1) / PTSIZE
  }

  /** Entries touched are not the UVPT entry, hold no 4 MB page and, for the large-page variant, nothing at all. */
  ghost predicate Mappable(dir: Frame, va: nat, size: nat, large: bool) {
    forall i | 0 <= i < NPTENTRIES && Touches(va, size, i) ::
      i != UVPT_PDX && !dir[i].flags.ps && (large ==> !dir[i].flags.p)
  }

  /** How many tables the first `done` bytes of a region may need. */
  function TablesFor(va: nat, done: nat): nat {
    if done == 0 then 0 else (va + done - 1) / PTSIZE - va / PTSIZE + 1
  }

  /** Where the loop stands after `done` bytes: it is at the start of a directory entry that is as it was, or inside
      one that has a table. */
  ghost predicate AtBoundary(g: Graph, dir0: Frame, dir: Frame, va: nat, done: nat) {
    && (forall i | 0 <= i < NPTENTRIES && (i * PTSIZE >= va + done || i < va / PTSIZE) :: dir[i] == dir0[i])
    && ((va + done) % PTSIZE != 0 && done > 0 ==> Kern((va + done) / PTSIZE) in g)
    && (done == 0 ==> dir == dir0)
  }

  lemma RoundStarts(g: Graph, dir0: Frame, dir: Frame, va: nat, size: nat, done: nat, large: bool)
    requires va % PGSIZE == 0 && va + size <= ADDRESS_LIMIT && UTOP <= va && done < size
    requires AtBoundary(g, dir0, dir, va, done) && Mappable(dir0, va, size, large)
    requires forall i: nat | Kern(i) in g :: i < NPTENTRIES && !dir[i].flags.ps
    ensures var i := (va + done) / PTSIZE;
      && i < NPTENTRIES && i != UVPT_PDX && !dir[i].flags.ps
      && (large && (va + done) % PTSIZE == 0 ==> !dir[i].flags.p)
  {
    var i := (va + done) / PTSIZE;
    assert Touches(va, size, i);
    if (va + done) % PTSIZE == 0 {
      assert i * PTSIZE >= va + done;
    }
  }

  lemma SmallRoundEnds(g: Graph, g': Graph, dir0: Frame, dir: Frame, dir': Frame, va: nat, done: nat)
    requires va % PGSIZE == 0 && done % PGSIZE == 0 && va + done < ADDRESS_LIMIT
    requires AtBoundary(g, dir0, dir, va, done)
    requires forall i | 0 <= i < NPTENTRIES && i != (va + done) / PTSIZE :: dir'[i] == dir[i]
    requires Kern((va + done) / PTSIZE) in g'
    ensures AtBoundary(g', dir0, dir', va, done + PGSIZE)
    ensures TablesFor(va, done + PGSIZE) >= TablesFor(va, done) + if Kern((va + done) / PTSIZE) in g then 0 else 1
  {
    var a := va + done;
    assert (a + PGSIZE - 1) / PTSIZE == a / PTSIZE;
    if done > 0 && a % PTSIZE == 0 {
      EntryBefore(a);
    }
    if (a + PGSIZE) % PTSIZE != 0 {
      assert (a + PGSIZE) / PTSIZE == a / PTSIZE;
    }
  }

  lemma LargeRoundEnds(g: Graph, dir0: Frame, dir: Frame, dir': Frame, va: nat, done: nat)
    requires (va + done) % PTSIZE == 0 && va + done < ADDRESS_LIMIT
    requires AtBoundary(g, dir0, dir, va, done)
    requires forall i | 0 <= i < NPTENTRIES && i != (va + done) / PTSIZE :: dir'[i] == dir[i]
    ensures AtBoundary(g, dir0, dir', va, done + PTSIZE)
    ensures TablesFor(va, done + PTSIZE) >= TablesFor(va, done)
  {
  }

  /** Aligned regions: their ends are aligned together. */
  lemma SameOffset(va0: nat, pa0: nat, done: nat)
    requires va0 % PTSIZE == pa0 % PTSIZE
    ensures (va0 + done) % PTSIZE == (pa0 + done) % PTSIZE
  {
  }

  /** 32-bit addresses. */
  function Wrap(a: nat): nat { a % ADDRESS_LIMIT }

  lemma NoWrap(a: nat)
    requires a < ADDRESS_LIMIT
    ensures Wrap(a) == a
  {
  }

  /** What the loop has achieved after `done` bytes. */
  ghost predicate SoFar(c0: Counts, m0: seq<Frame>, c: Counts, g: Graph, m: seq<Frame>, b: Boot,
                        va: nat, pa: nat, perm: Flags, done: nat) {
    && Inv(c, g, m, b, NOTHING) && NoEnvs(g) && b.kern < |m0| == |m|
    && Mapped(m0, m, b.kern, va, va + done, pa, perm) && CountsKept(c0, c)
    && |c.free| >= |c0.free| - TablesFor(va, done)
    && AtBoundary(g, m0[b.kern], m[b.kern], va, done)
  }

  /** Every directory entry that the first `done` bytes touch has a table. */
  ghost predicate TablesThere(g: Graph, va: nat, done: nat) {
    forall i: nat | Touches(va, done, i) :: Kern(i) in g
  }

  lemma OneMoreTable(g: Graph, g': Graph, va: nat, done: nat)
    requires TablesThere(g, va, done) && va % PGSIZE == 0 && done % PGSIZE == 0
    requires Kern((va + done) / PTSIZE) in g' && forall i: nat | Kern(i) in g :: Kern(i) in g'
    ensures TablesThere(g', va, done + PGSIZE)
  {
    forall i: nat | Touches(va, done + PGSIZE, i) ensures Kern(i) in g' {
      if i != (va + done) / PTSIZE {
        assert (va + done + PGSIZE - 1) / PTSIZE == (va + done) / PTSIZE;
        EntryBelow(va, done, i);
        assert Touches(va, done, i);
      }
    }
  }

  lemma EntryBelow(va: nat, done: nat, i: nat)
    requires va / PTSIZE <= i < (va + done) / PTSIZE
    ensures done > 0 && i <= (va + done - 1) / PTSIZE
  {
    if done > 0 {
      EntryMonotone(i * PTSIZE, va + done - 1);
    }
  }

  /** What a region leaves alone in the directory: the entries it does not touch; and if it has used no 4 MB page, those
      it touches now hold no 4 MB page. */
  ghost predicate DirectoryKept(dir0: Frame, dir: Frame, va: nat, size: nat, large: bool) {
    && (forall i: nat | i < NPTENTRIES && !Touches(va, size, i) :: dir[i] == dir0[i])
    && (!large ==> forall i: nat | i < NPTENTRIES && Touches(va, size, i) :: !dir[i].flags.ps)
  }

  lemma DirectoryEnds(c0: Counts, m0: seq<Frame>, c: Counts, g: Graph, m: seq<Frame>, b: Boot, va: nat, pa: nat,
                      perm: Flags, size: nat, large: bool)
    requires SoFar(c0, m0, c, g, m, b, va, pa, perm, size) && b.kern < |m0| && (large || TablesThere(g, va, size))
    ensures b.kern < |m| && DirectoryKept(m0[b.kern], m[b.kern], va, size, large)
  {
    hide Mapped, CountsKept, TablesFor;
    TablesAreSmall(c, g, m, b);
    forall i: nat | i < NPTENTRIES && !Touches(va, size, i) ensures m[b.kern][i] == m0[b.kern][i] {
      if i > (va + size - 1) / PTSIZE && size > 0 {
        assert i * PTSIZE >= va + size;
      }
    }
  }

  lemma StartSoFar(c: Counts, g: Graph, m: seq<Frame>, b: Boot, va: nat, pa: nat, perm: Flags)
    requires Inv(c, g, m, b, NOTHING) && NoEnvs(g) && b.kern < |m|
    ensures SoFar(c, m, c, g, m, b, va, pa, perm, 0)
  {
    MappedNothing(m, b.kern, va, pa, perm);
    CountsKept0(c);
    BoundaryStart(g, m[b.kern], va);
  }

  lemma EndSoFar(c0: Counts, m0: seq<Frame>, c: Counts, g: Graph, m: seq<Frame>, b: Boot, va: nat, pa: nat,
                 perm: Flags, done: nat)
    requires SoFar(c0, m0, c, g, m, b, va, pa, perm, done)
    ensures Inv(c, g, m, b, NOTHING) && NoEnvs(g) && Mapped(m0, m, b.kern, va, va + done, pa, perm) && CountsKept(c0, c)
    ensures |c.free| >= |c0.free| - TablesFor(va, done)
  {
  }

  /** The next round is possible: its directory entry may be used. */
  lemma RoundReady(c0: Counts, m0: seq<Frame>, c: Counts, g: Graph, m: seq<Frame>, b: Boot,
                   va: nat, size: nat, pa: nat, perm: Flags, done: nat, large: bool)
    requires SoFar(c0, m0, c, g, m, b, va, pa, perm, done) && b.kern < |m0|
    requires va % PGSIZE == 0 && va + size <= ADDRESS_LIMIT && UTOP <= va && done < size
    requires Mappable(m0[b.kern], va, size, large) && (large ==> va % PTSIZE == pa % PTSIZE)
    ensures Inv(c, g, m, b, NOTHING) && NoEnvs(g) && b.kern < |m| == |m0|
    ensures var i := (va + done) / PTSIZE;
      && i < NPTENTRIES && i != UVPT_PDX && !m[b.kern][i].flags.ps
      && (large && (pa + done) % PTSIZE == 0 ==> (va + done) % PTSIZE == 0 && !m[b.kern][i].flags.p)
  {
    hide Inv, Mapped, CountsKept;
    TablesAreSmall(c, g, m, b);
    RoundStarts(g, m0[b.kern], m[b.kern], va, size, done, large);
    if large {
      SameOffset(va, pa, done);
    }
  }

  lemma LargeRound(c0: Counts, m0: seq<Frame>, c: Counts, g: Graph, m: seq<Frame>, m': seq<Frame>, b: Boot,
                   va: nat, pa: nat, perm: Flags, done: nat)
    requires SoFar(c0, m0, c, g, m, b, va, pa, perm, done) && Inv(c, g, m', b, NOTHING) && b.kern < |m| == |m'|
    requires (va + done) % PTSIZE == 0 && va + done < ADDRESS_LIMIT && va % PGSIZE == pa % PGSIZE == done % PGSIZE == 0
    requires Changed(m, m', b.kern, PGNUM(va + done), PGNUM(va + done) + NPTENTRIES, PGNUM(pa + done), perm)
    requires forall i | 0 <= i < NPTENTRIES && i != (va + done) / PTSIZE :: m'[b.kern][i] == m[b.kern][i]
    ensures SoFar(c0, m0, c, g, m', b, va, pa, perm, done + PTSIZE)
  {
    hide Inv, Mapped, Changed, CountsKept, AtBoundary, TablesFor;
    LargeRoundEnds(g, m0[b.kern], m[b.kern], m'[b.kern], va, done);
    PagesAdd(va + done, pa + done, va, pa, done);
    MappedGrows(m0, m, m', b.kern, va, va + done, va + done + PTSIZE, pa, perm);
  }

  lemma SmallRound(c0: Counts, m0: seq<Frame>, c: Counts, g: Graph, m: seq<Frame>, c': Counts, g': Graph,
                   m': seq<Frame>, b: Boot,
                   va: nat, pa: nat, perm: Flags, done: nat)
    requires SoFar(c0, m0, c, g, m, b, va, pa, perm, done) && Inv(c', g', m', b, NOTHING) && NoEnvs(g')
    requires b.kern < |m| == |m'|
    requires va + done < ADDRESS_LIMIT && va % PGSIZE == pa % PGSIZE == done % PGSIZE == 0
    requires Changed(m, m', b.kern, PGNUM(va + done), PGNUM(va + done) + 1, PGNUM(pa + done), perm)
    requires Kern((va + done) / PTSIZE) in g' && CountsKept(c, c')
    requires |c'.free| >= |c.free| - if Kern((va + done) / PTSIZE) in g then 0 else 1
    requires forall i | 0 <= i < NPTENTRIES && i != (va + done) / PTSIZE :: m'[b.kern][i] == m[b.kern][i]
    ensures SoFar(c0, m0, c', g', m', b, va, pa, perm, done + PGSIZE)
  {
    hide Inv, Mapped, Changed, CountsKept, AtBoundary, TablesFor;
    SmallRoundEnds(g, g', m0[b.kern], m[b.kern], m'[b.kern], va, done);
    PagesAdd(va + done, pa + done, va, pa, done);
    MappedGrows(m0, m, m', b.kern, va, va + done, va + done + PGSIZE, pa, perm);
    CountsKeptTransitive(c0, c, c');
  }

  /** Memory can run out only if there were fewer free pages than the region needs tables. */
  lemma NoTableLeft(c0: Counts, m0: seq<Frame>, c: Counts, g: Graph, m: seq<Frame>, b: Boot,
                    va: nat, size: nat, pa: nat, perm: Flags, done: nat)
    requires SoFar(c0, m0, c, g, m, b, va, pa, perm, done) && b.kern < |m| == |m0|
    requires done < size && va % PGSIZE == 0 && done % PGSIZE == 0 && size % PGSIZE == 0
    requires Kern((va + done) / PTSIZE) !in g && c.free == []
    ensures |c0.free| < TablesFor(va, size)
  {
    EnoughTables(g, m0[b.kern], m[b.kern], va, size, done);
  }

  /** Where the region lies: above UTOP, and not across 2^32. */
  predicate Placed(va: nat, size: nat, pa: nat) {
    UTOP <= va < ADDRESS_LIMIT && pa < ADDRESS_LIMIT && va + size <= ADDRESS_LIMIT && pa + size <= ADDRESS_LIMIT
  }

  /** The assertions at the start of boot_map_region. */
  predicate Aligned(va: nat, size: nat, pa: nat) {
    va % PGSIZE == 0 && pa % PGSIZE == 0 && size % PGSIZE == 0
  }

  /** Whether a region is mapped with 4 MB pages at all. */
  predicate UsesLarge(size: nat, large: bool) { large && size >= PTSIZE }

  /** The region is made of 4 MB pages. */
  predicate InLargePages(pa: nat, size: nat) { pa % PTSIZE == 0 && size % PTSIZE == 0 }

  lemma NextLargePage(pa: nat, size0: nat, size: nat)
    requires 0 < size <= size0
    ensures InLargePages(pa, size0) && InLargePages(pa, size) ==>
      (pa + (size0 - size)) % PTSIZE == 0 && size >= PTSIZE && InLargePages(pa, size - PTSIZE)
  {
  }

  /** boot_map_region; `large` is the variant compiled with TP1_PSE. Addresses are 32-bit words. Both variants keep the
      same promise, and both end, even where va reaches 2^32 and wraps to 0; with 4 MB pages a region made of them takes
      no table. `ok` is false when an assertion fails or
      where the code stores through the null pointer of a pgdir_walk that has found no memory. */
  method BootMapRegion(k: Kernel, va0: nat, size0: nat, pa0: nat, perm: Flags, large: bool) returns (ok: bool)
    requires k.PageInv(NOTHING) && NoEnvs(k.g) && Placed(va0, size0, pa0)
    requires k.boot.kern < |k.mem| && Mappable(k.mem[k.boot.kern], va0, size0, UsesLarge(size0, large))
    requires UsesLarge(size0, large) ==> va0 % PTSIZE == pa0 % PTSIZE
    modifies k`pages, k`pageFreeList, k`mem, k`free, k`g
    ensures k.PageInv(NOTHING) && NoEnvs(k.g) && k.boot.kern < |k.mem| == |old(k.mem)|
    ensures ok ==> Mapped(old(k.mem), k.mem, k.boot.kern, va0, va0 + size0, pa0, perm) && CountsKept(old(k.C()), k.C())
    ensures ok ==> DirectoryKept(old(k.mem)[k.boot.kern], k.mem[k.boot.kern], va0, size0, UsesLarge(size0, large))
    ensures ok ==> |k.free| >= |old(k.free)| - TablesFor(va0, size0)
    ensures ok ==> Aligned(va0, size0, pa0)
    ensures ok && large && InLargePages(pa0, size0) ==> k.C() == old(k.C()) && k.g == old(k.g)
    ensures Aligned(va0, size0, pa0) && |old(k.free)| >= TablesFor(va0, size0) ==> ok
  {
    hide Inv, Coherent, Changed, Mapped, NoEnvs, CountsKept, TablesFor, Mappable, SoFar, Wrap, TablesThere,
         DirectoryKept, InLargePages;
    if va0 % PGSIZE != 0 || pa0 % PGSIZE != 0 || size0 % PGSIZE != 0 {
      return false;
    }
    var va, size, pa := va0, size0, pa0;
    ghost var c0, m0 := k.C(), k.mem;
    StartSoFar(c0, k.g, m0, k.boot, va0, pa0, perm);
    NoWrap(va0);
    NoWrap(pa0);
    assert TablesThere(k.g, va0, 0) by { NothingTouched(k.g, va0); }
    while size > 0
      invariant 0 <= size <= size0 && size % PGSIZE == 0 && k.boot.kern < |k.mem| == |m0|
      invariant va == Wrap(va0 + (size0 - size)) && pa == Wrap(pa0 + (size0 - size))
      invariant SoFar(c0, m0, k.C(), k.g, k.mem, k.boot, va0, pa0, perm, size0 - size) && NoEnvs(k.g)
      invariant UsesLarge(size0, large) || TablesThere(k.g, va0, size0 - size)
      invariant large && InLargePages(pa0, size0) ==>
        InLargePages(pa0, size) && k.C() == old(k.C()) && k.g == old(k.g)
    {
      ghost var done, c, g, m := size0 - size, k.C(), k.g, k.mem;
      NoWrap(va0 + done);
      NoWrap(pa0 + done);
      NextLargePage(pa0, size0, size);
      RoundReady(c0, m0, c, g, m, k.boot, va0, size0, pa0, perm, done, UsesLarge(size0, large));
      if large && pa % PTSIZE == 0 && size >= PTSIZE {
        MapLargePage(k, va, pa, perm);
        LargeRound(c0, m0, c, g, m, k.mem, k.boot, va0, pa0, perm, done);
        size := size - PTSIZE;
        va := Wrap(va + PTSIZE);
        pa := Wrap(pa + PTSIZE);
      } else {
        ok := MapPage(k, va, pa, perm);
        if !ok {
          NoTableLeft(c0, m0, c, g, m, k.boot, va0, size0, pa0, perm, done);
          return;
        }
        SmallRound(c0, m0, c, g, m, k.C(), k.g, k.mem, k.boot, va0, pa0, perm, done);
        if !UsesLarge(size0, large) {
          OneMoreTable(g, k.g, va0, done);
        }
        size := size - PGSIZE;
        va := Wrap(va + PGSIZE);
        pa := Wrap(pa + PGSIZE);
      }
    }
    EndSoFar(c0, m0, k.C(), k.g, k.mem, k.boot, va0, pa0, perm, size0);
    DirectoryEnds(c0, m0, k.C(), k.g, k.mem, k.boot, va0, pa0, perm, size0, UsesLarge(size0, large));
    return true;
  }

  lemma NothingTouched(g: Graph, va: nat)
    ensures TablesThere(g, va, 0)
  {
  }

  lemma CountsKept0(c: Counts)
    ensures CountsKept(c, c)
  {
  }

  lemma BoundaryStart(g: Graph, dir: Frame, va: nat)
    ensures AtBoundary(g, dir, dir, va, 0) && TablesFor(va, 0) == 0
  {
  }

  lemma PagesAdd(va: nat, pa: nat, va0: nat, pa0: nat, done: nat)
    requires va == va0 + done && pa == pa0 + done && va0 % PGSIZE == pa0 % PGSIZE == done % PGSIZE == 0
    ensures PGNUM(pa) == PGNUM(pa0) + PGNUM(va) - PGNUM(va0)
    ensures PGNUM(va + PTSIZE) == PGNUM(va) + NPTENTRIES && PGNUM(va + PGSIZE) == PGNUM(va) + 1
  {
  }

  /** A round that needs a new table: the region as a whole needs more tables than the rounds before. */
  lemma EnoughTables(g: Graph, dir0: Frame, dir: Frame, va: nat, size: nat, done: nat)
    requires done < size && va % PGSIZE == 0 && done % PGSIZE == 0 && size % PGSIZE == 0
    requires AtBoundary(g, dir0, dir, va, done) && Kern((va + done) / PTSIZE) !in g
    ensures TablesFor(va, done) < TablesFor(va, size)
  {
    var a := va + done;
    EntryMonotone(a, va + size - 1);
    if done > 0 {
      EntryBefore(a);
    }
  }

  lemma EntryMonotone(x: nat, y: nat)
    requires x <= y
    ensures x / PTSIZE <= y / PTSIZE
  {
  }

  lemma EntryBefore(a: nat)
    requires a > 0 && a % PTSIZE == 0
    ensures (a - 1) / PTSIZE == a / PTSIZE - 1
  {
  }

  /** check_va2pa, for the page at `va`: the physical address, or none where it returns ~0. */
  method CheckVa2pa(k: Kernel, d: nat, va: nat) returns (pa: Option<nat>)
    requires d < |k.mem| && va < ADDRESS_LIMIT && va % PGSIZE == 0
    requires RefersToTable(k.mem[d][PDX(va)]) ==> k.mem[d][PDX(va)].addr < |k.mem|
    ensures pa == match Walk(k.mem, d, PageOf(va)) case Some(t) => Some(t.addr * PGSIZE) case None => None
  {
    var pde := k.mem[d][PDX(va)];
    if !pde.flags.p {
      return None;
    }
    if pde.flags.ps {
      return Some(pde.addr / NPTENTRIES * PTSIZE + PTX(va) * PGSIZE + va % PGSIZE);
    }
    var p := k.mem[pde.addr];
    if !p[PTX(va)].flags.p {
      return None;
    }
    return Some(p[PTX(va)].addr * PGSIZE);
  }

  lemma SameTranslations(m0: seq<Frame>, small: seq<Frame>, large: seq<Frame>, kern: nat, va: nat, size: nat, pa: nat,
                         perm: Flags, v: Page)
    requires Mapped(m0, small, kern, va, va + size, pa, perm) && Mapped(m0, large, kern, va, va + size, pa, perm)
    requires v.i < NPTENTRIES && v.j < NPTENTRIES && v.i != UVPT_PDX
    ensures Walk(small, kern, v) == Walk(large, kern, v)
  {
  }

  /** The two variants of boot_map_region, run on two machines with the same memory, translate every page outside the
      UVPT window alike. */
  method RunBothVariants(k: Kernel, k': Kernel, va: nat, size: nat, pa: nat, perm: Flags) returns (ok: bool)
    requires k != k' && k.boot == k'.boot && k.mem == k'.mem
    requires k.PageInv(NOTHING) && k'.PageInv(NOTHING) && NoEnvs(k.g) && NoEnvs(k'.g)
    requires Placed(va, size, pa) && Aligned(va, size, pa) && va % PTSIZE == pa % PTSIZE
    requires k.boot.kern < |k.mem| && Mappable(k.mem[k.boot.kern], va, size, true)
    modifies k, k'
    ensures ok ==> k.boot.kern < |k.mem| == |k'.mem|
    ensures ok ==>
      forall v: Page | v.i < NPTENTRIES && v.j < NPTENTRIES && v.i != UVPT_PDX ::
        Walk(k.mem, k.boot.kern, v) == Walk(k'.mem, k.boot.kern, v)
    ensures |old(k.free)| >= TablesFor(va, size) && |old(k'.free)| >= TablesFor(va, size) ==> ok
  {
    hide Inv, Walk, NoEnvs, TablesFor, CountsKept, DirectoryKept, Mapped;
    ok := BootMapRegion(k, va, size, pa, perm, false);
    if !ok {
      return;
    }
    ok := BootMapRegion(k', va, size, pa, perm, true);
    if ok {
      forall v: Page | v.i < NPTENTRIES && v.j < NPTENTRIES && v.i != UVPT_PDX
        ensures Walk(k.mem, k.boot.kern, v) == Walk(k'.mem, k.boot.kern, v)
      {
        SameTranslations(old(k.mem), k.mem, k'.mem, k.boot.kern, va, size, pa, perm, v);
      }
    }
  }
}

/** lib/fork.c: fork_v0, an address-space copy made of system calls. */
module Fork {
  import opened Layout
  import opened Graph
  import opened PageState
  import opened Tables
  import opened Steps
  import opened EnvId
  import opened EnvState
  import opened Pmap
  import opened EnvOps
  import opened AddressSpace
  import opened Syscall
  import opened RunState
  import opened Ipc
  import opened Traps

  /** A read-only page, or one marked PTE_MAPPED, is shared; any other is copied. */
  predicate Shared(f: Flags) {
    !f.w || f.mapped
  }

  /** No environment maps page `p`. */
  ghost predicate NotMapped(g: Graph, p: nat) {
    forall e: nat, v: nat | v in Flat(g, e) :: Flat(g, e)[v].addr != p
  }

  /** The caller sees `child` under the id `pid`. */
  ghost predicate IsChild(k: Kernel, c: nat, pid: int, child: nat)
    requires InSyscall(k, c)
    reads k
  {
    && child < NENV && child != k.cpus[c].env.value && k.envs[child].status != Free
    && Resolve(k.envs, k.cpus[c].env.value, pid, true) == Some(child)
  }

  lemma UnreferencedIsUnmapped(g: Graph, p: nat)
    requires forall s | s in g :: g[s].addr != p
    ensures NotMapped(g, p)
  {
  }

  lemma MappedPage(c: Counts, g: Graph, m: seq<Frame>, b: Boot, e: nat, va: nat)
    requires Inv(c, g, m, b, NOTHING) && va < UTOP && PGNUM(va) in Flat(g, e)
    ensures At(e, va) in g && g[At(e, va)] == Flat(g, e)[PGNUM(va)]
    ensures 0 < Flat(g, e)[PGNUM(va)].addr < |m| == b.npages == |c.pages|
    ensures NotTable(g, b, Flat(g, e)[PGNUM(va)].addr)
    ensures Pde(e, PDX(va)) in g
  {
    LookupReads(g, e, va);
    Shape(c, g, m, b, NOTHING);
    Sizes(c, g, m, b, NOTHING);
  }

  /** A user-mode memmove of one page to another, both mapped, the target writable. */
  method UserCopyPage(k: Kernel, e: nat, dstva: nat, srcva: nat)
    requires k.PageInv(NOTHING) && dstva < UTOP && srcva < UTOP
    requires PGNUM(dstva) in Flat(k.g, e) && PGNUM(srcva) in Flat(k.g, e) && Flat(k.g, e)[PGNUM(dstva)].flags.w
    requires e < |k.envs| && k.envs[e].pgdir.Some? && k.IsDir(e, k.envs[e].pgdir.value)
    modifies k`mem
    ensures old(k.TlbOk()) ==> k.TlbOk()
    ensures k.PageInv(NOTHING)
    ensures var p, q := Flat(k.g, e)[PGNUM(dstva)].addr, Flat(k.g, e)[PGNUM(srcva)].addr;
      p < |old(k.mem)| && q < |old(k.mem)| && k.mem == old(k.mem)[p := old(k.mem)[q]]
  {
    hide Inv, Flat, NotTable, Coherent;
    MappedPage(k.C(), k.g, k.mem, k.boot, e, dstva);
    MappedPage(k.C(), k.g, k.mem, k.boot, e, srcva);
    k.WalkFollowsGraph(e, k.envs[e].pgdir.value, dstva, NOTHING);
    k.WalkFollowsGraph(e, k.envs[e].pgdir.value, srcva, NOTHING);
    var dir := k.mem[k.envs[e].pgdir.value];
    var p := k.mem[dir[PDX(dstva)].addr][PTX(dstva)].addr;
    var q := k.mem[dir[PDX(srcva)].addr][PTX(srcva)].addr;
    StepData(k.C(), k.g, k.mem, k.boot, NOTHING, p, k.mem[q]);
    DataKeepsCoherence(k.tlbs, k.ThisCpu(), k.cpus, k.envs, k.C(), k.g, k.boot, k.mem, NOTHING, p, k.mem[q]);
    k.mem := k.mem[p := k.mem[q]];
  }

  /** The child sees one more page, `w`, at `v`; the caller and everybody else see what they saw. */
  ghost predicate GaveChild(g: Graph, g': Graph, child: nat, v: nat, w: Word) {
    && Flat(g', child) == Flat(g, child)[v := w]
    && (forall e': nat | e' != child :: Flat(g', e') == Flat(g, e'))
  }

  /** Every mapping other than page `v` of environment `e` keeps its contents. */
  ghost predicate KeptElsewhere(g: Graph, m: seq<Frame>, m': seq<Frame>, e: nat, v: nat) {
    |m| == |m'| && forall e': nat, v': nat | v' in Flat(g, e') && (e' != e || v' != v) ::
      Flat(g, e')[v'].addr < |m| && m'[Flat(g, e')[v'].addr] == m[Flat(g, e')[v'].addr]
  }

  /** Every mapping keeps its contents. */
  ghost predicate Kept(g: Graph, m: seq<Frame>, m': seq<Frame>) {
    |m| == |m'| && forall e: nat, v: nat | v in Flat(g, e) ::
      Flat(g, e)[v].addr < |m| && m'[Flat(g, e)[v].addr] == m[Flat(g, e)[v].addr]
  }

  lemma SameMappedContents(g: Graph, b: Boot, m: seq<Frame>, m': seq<Frame>)
    requires SameMapped(g, b, m, m')
    ensures Kept(g, m, m')
  {
  }

  lemma KeptIsKeptElsewhere(g: Graph, m: seq<Frame>, m': seq<Frame>, e: nat, v: nat)
    requires Kept(g, m, m')
    ensures KeptElsewhere(g, m, m', e, v)
  {
  }

  /** What a part of the fork costs: at most `n` free pages; no table is gone; and no page of the map `F` has been
      counted up more than `m` times. */
  ghost predicate Spent(c: Counts, g: Graph, c': Counts, g': Graph, F: map<nat, Word>, n: nat, m: nat) {
    && |c'.pages| == |c.pages| && |c'.free| + n >= |c.free|
    && (forall e: nat, i: nat | Pde(e, i) in g :: Pde(e, i) in g')
    && forall v | v in F && F[v].addr < |c.pages| :: c'.pages[F[v].addr].ref <= c.pages[F[v].addr].ref + m
  }

  /** There are `n` free pages, and every page of the map `F` can be counted up `m` times. */
  ghost predicate Enough(c: Counts, F: map<nat, Word>, n: int, m: int) {
    |c.free| >= n && forall v | v in F :: F[v].addr < |c.pages| && c.pages[F[v].addr].ref + m < REF_LIMIT
  }

  lemma SpentThen(c: Counts, g: Graph, c1: Counts, g1: Graph, c2: Counts, g2: Graph, F: map<nat, Word>,
                  n1: nat, m1: nat, n2: nat, m2: nat)
    requires Spent(c, g, c1, g1, F, n1, m1) && Spent(c1, g1, c2, g2, F, n2, m2)
    ensures Spent(c, g, c2, g2, F, n1 + n2, m1 + m2)
  {
  }

  lemma SpentLess(c: Counts, g: Graph, c': Counts, g': Graph, F: map<nat, Word>, n: nat, m: nat, n': nat, m': nat)
    requires Spent(c, g, c', g', F, n, m) && n <= n' && m <= m'
    ensures Spent(c, g, c', g', F, n', m')
  {
  }

  lemma EnoughLeft(c: Counts, g: Graph, c': Counts, g': Graph, F: map<nat, Word>, n: nat, m: nat, n': int, m': int)
    requires Enough(c, F, n', m') && Spent(c, g, c', g', F, n, m)
    ensures Enough(c', F, n' - n, m' - m)
  {
  }

  /** A system call costs the fork what it costs: the pages of a map are in use. */
  lemma CallCosts(c: Counts, g: Graph, m: seq<Frame>, b: Boot, c': Counts, g': Graph, e: nat, n: nat, pp: Option<nat>)
    requires Inv(c, g, m, b, NOTHING) && Cost(c, g, c', g', n, pp)
    ensures Spent(c, g, c', g', Flat(g, e), n, if pp == None then 0 else 1)
  {
    hide Inv;
    Sizes(c, g, m, b, NOTHING);
  }

  /** What may be passed as perm: the entries of a map are present. */
  lemma EntriesPresent(c: Counts, g: Graph, m: seq<Frame>, b: Boot, e: nat, v: nat)
    requires Inv(c, g, m, b, NOTHING) && v in Flat(g, e)
    ensures Flat(g, e)[v].flags.p
  {
    var i, j := v / NPTENTRIES, v % NPTENTRIES;
    assert TableMatch(g, m[g[Pde(e, i)].addr], e, i);
  }

  /** The read-only or PTE_MAPPED half of dup_or_share. */
  method Share(k: Kernel, c: nat, pid: int, va: nat, perm: Flags, ghost child: nat) returns (ok: bool)
    requires InSyscall(k, c) && IsChild(k, c, pid, child) && UserPage(va)
    requires PGNUM(va) in Flat(k.g, k.cpus[c].env.value)
    modifies k`pages, k`pageFreeList, k`mem, k`free, k`tlbs, k`g
    ensures old(k.TlbOk()) ==> k.TlbOk()
    ensures InSyscall(k, c)
    ensures ok ==>
      && GaveChild(old(k.g), k.g, child, PGNUM(va), Word(Flat(old(k.g), k.cpus[c].env.value)[PGNUM(va)].addr, perm))
      && KeptElsewhere(old(k.g), old(k.mem), k.mem, child, PGNUM(va))
      && Spent(old(k.C()), old(k.g), k.C(), k.g, Flat(old(k.g), k.cpus[c].env.value), 1, 1)
    ensures
      var F := Flat(old(k.g), k.cpus[c].env.value);
      PermOk(Word(0, perm)) && (perm.w ==> F[PGNUM(va)].flags.w) && Enough(old(k.C()), F, 1, 1) ==> ok
  {
    hide Inv, EnvInv, Coherent, Flat, SameMapped, Spent, Cost;
    var cur := k.cpus[c].env.value;
    MappedPage(k.C(), k.g, k.mem, k.boot, cur, va);
    var page, pte := LookupPage(k, cur, va);
    if k.pages[page.value].ref >= REF_LIMIT - 1 {
      // the 16-bit count is at its limit: outside the runs modelled
      return false;
    }
    var r := SysPageMap(k, c, 0, va, pid, va, Word(0, perm));
    if r == Ret(0) {
      SameMappedContents(old(k.g), k.boot, old(k.mem), k.mem);
      KeptIsKeptElsewhere(old(k.g), old(k.mem), k.mem, child, PGNUM(va));
      CallCosts(old(k.C()), old(k.g), old(k.mem), k.boot, k.C(), k.g, cur, TableCost(old(k.g), child, va),
                Some(page.value));
      SpentLess(old(k.C()), old(k.g), k.C(), k.g, Flat(old(k.g), cur), TableCost(old(k.g), child, va), 1, 1, 1);
    }
    return r == Ret(0);
  }

  /** All maps are as before; page `p` now holds what page `q` held, and every other mapped page keeps its contents. */
  ghost predicate Copied(g: Graph, m: seq<Frame>, g': Graph, m': seq<Frame>, p: nat, q: nat) {
    && (forall e: nat :: Flat(g', e) == Flat(g, e))
    && |m| == |m'| && p < |m| && q < |m| && m'[p] == m[q]
    && forall e: nat, v: nat | v in Flat(g, e) && Flat(g, e)[v].addr != p ::
         Flat(g, e)[v].addr < |m| && m'[Flat(g, e)[v].addr] == m[Flat(g, e)[v].addr]
  }

  /** Mapping the child's page at the caller's UTEMP and copying the caller's page at `va` into it; `m2` is the memory
      in between. */
  method CopyAtUtemp(k: Kernel, c: nat, pid: int, va: nat, perm: Flags, ghost cur: nat, ghost child: nat)
    returns (ok: bool, ghost m2: seq<Frame>)
    requires c < |k.cpus| && k.cpus[c].env == Some(cur)
    requires InSyscall(k, c) && IsChild(k, c, pid, child) && UserPage(va) && va != UTEMP && perm.w
    requires PGNUM(va) in Flat(k.g, cur) && PGNUM(va) in Flat(k.g, child) && RoomToShare(k, child, va, cur, UTEMP)
    modifies k`pages, k`pageFreeList, k`mem, k`free, k`tlbs, k`g
    ensures old(k.TlbOk()) ==> k.TlbOk()
    ensures InSyscall(k, c)
    ensures ok ==>
      var p := Flat(old(k.g), child)[PGNUM(va)].addr;
      && GaveChild(old(k.g), k.g, cur, PGNUM(UTEMP), Word(p, perm)) && Kept(old(k.g), old(k.mem), m2)
      && Cost(old(k.C()), old(k.g), k.C(), k.g, TableCost(old(k.g), cur, UTEMP), Some(p))
      && PGNUM(va) in Flat(k.g, cur) && p < |m2| && Flat(k.g, cur)[PGNUM(va)].addr < |m2|
      && k.mem == m2[p := m2[Flat(k.g, cur)[PGNUM(va)].addr]]
    ensures
      var n := TableCost(old(k.g), cur, UTEMP);
      PermOk(Word(0, perm)) && Flat(old(k.g), child)[PGNUM(va)].flags.w && |old(k.free)| >= n ==> ok
  {
    hide Inv, EnvInv, Coherent, Flat, SameMapped, Cost;
    MappedPage(k.C(), k.g, k.mem, k.boot, child, va);
    var r := SysPageMap(k, c, pid, va, 0, UTEMP, Word(0, perm));
    m2 := k.mem;
    ok := r == Ret(0);
    if ok {
      SameMappedContents(old(k.g), k.boot, old(k.mem), k.mem);
      SlotInUse(k.envs, k.envFreeList, k.envFree, k.allocs, k.g, cur);
      UserCopyPage(k, k.cpus[c].env.value, UTEMP, va);
    }
  }

  /** Copying the caller's page at `va` into the child's page there: map it at UTEMP, copy, unmap. */
  method CopyThroughUtemp(k: Kernel, c: nat, pid: int, va: nat, perm: Flags, ghost child: nat) returns (ok: bool)
    requires InSyscall(k, c) && IsChild(k, c, pid, child) && UserPage(va) && va != UTEMP && perm.w
    requires PGNUM(va) in Flat(k.g, k.cpus[c].env.value) && PGNUM(UTEMP) !in Flat(k.g, k.cpus[c].env.value)
    requires PGNUM(va) in Flat(k.g, child) && RoomToShare(k, child, va, k.cpus[c].env.value, UTEMP)
    modifies k`pages, k`pageFreeList, k`mem, k`free, k`tlbs, k`g
    ensures old(k.TlbOk()) ==> k.TlbOk()
    ensures InSyscall(k, c)
    ensures ok ==>
      && Copied(old(k.g), old(k.mem), k.g, k.mem, Flat(old(k.g), child)[PGNUM(va)].addr,
                Flat(old(k.g), k.cpus[c].env.value)[PGNUM(va)].addr)
      && Pde(k.cpus[c].env.value, PDX(UTEMP)) in k.g
      && Spent(old(k.C()), old(k.g), k.C(), k.g, Flat(old(k.g), k.cpus[c].env.value),
               TableCost(old(k.g), k.cpus[c].env.value, UTEMP), 1)
    ensures
      var n := TableCost(old(k.g), k.cpus[c].env.value, UTEMP);
      PermOk(Word(0, perm)) && Flat(old(k.g), child)[PGNUM(va)].flags.w && |old(k.free)| >= n ==> ok
  {
    hide Inv, EnvInv, Coherent, Flat, SameMapped, Spent, Cost, Copied, TableCost, Kept;
    ghost var cur, c1, g1, m1 := k.cpus[c].env.value, k.C(), k.g, k.mem;
    ghost var m2;
    ok, m2 := CopyAtUtemp(k, c, pid, va, perm, cur, child);
    if !ok {
      return;
    }
    ghost var c2, g2, m3 := k.C(), k.g, k.mem;
    var rc := SysPageUnmap(k, c, 0, UTEMP);
    SameMappedContents(g2, k.boot, m3, k.mem);
    UtempIsTransparent(g1, m1, g2, m2, m3, k.g, k.mem, cur, child, PGNUM(va));
    UtempCosts(c1, g1, m1, c2, g2, m3, k.boot, k.C(), k.g, cur, Flat(g1, child)[PGNUM(va)].addr);
    return rc == 0;
  }

  /** Mapping a page at UTEMP and unmapping it again costs the table for UTEMP if that was missing. */
  lemma UtempCosts(c: Counts, g: Graph, m: seq<Frame>, c1: Counts, g1: Graph, m1: seq<Frame>, b: Boot, c2: Counts,
                   g2: Graph, e: nat, pp: nat)
    requires Inv(c, g, m, b, NOTHING) && Inv(c1, g1, m1, b, NOTHING)
    requires Cost(c, g, c1, g1, TableCost(g, e, UTEMP), Some(pp)) && Cost(c1, g1, c2, g2, 0, None)
    requires PGNUM(UTEMP) in Flat(g1, e)
    requires forall v | v in Flat(g, e) :: v in Flat(g1, e) && Flat(g1, e)[v].addr == Flat(g, e)[v].addr
    ensures Spent(c, g, c2, g2, Flat(g, e), TableCost(g, e, UTEMP), 1) && Pde(e, PDX(UTEMP)) in g2
  {
    hide Inv, Flat;
    MappedPage(c1, g1, m1, b, e, UTEMP);
    CallCosts(c, g, m, b, c1, g1, e, TableCost(g, e, UTEMP), Some(pp));
    CallCosts(c1, g1, m1, b, c2, g2, e, 0, None);
  }

  /** Mapping the child's page at the caller's UTEMP, copying into it and unmapping it leaves only the copy. */
  lemma UtempIsTransparent(g1: Graph, m1: seq<Frame>, g2: Graph, m2: seq<Frame>, m3: seq<Frame>, g4: Graph,
                           m4: seq<Frame>,
                           cur: nat, child: nat, v: nat)
    requires v in Flat(g1, child) && v in Flat(g1, cur) && PGNUM(UTEMP) !in Flat(g1, cur) && v != PGNUM(UTEMP)
    requires PGNUM(UTEMP) in Flat(g2, cur) && GaveChild(g1, g2, cur, PGNUM(UTEMP), Flat(g2, cur)[PGNUM(UTEMP)])
    requires Flat(g2, cur)[PGNUM(UTEMP)].addr == Flat(g1, child)[v].addr
    requires Flat(g4, cur) == Flat(g2, cur) - {PGNUM(UTEMP)} && forall e: nat | e != cur :: Flat(g4, e) == Flat(g2, e)
    requires Kept(g1, m1, m2) && Kept(g2, m3, m4)
    requires Flat(g1, child)[v].addr < |m2| && Flat(g2, cur)[v].addr < |m2|
    requires m3 == m2[Flat(g1, child)[v].addr := m2[Flat(g2, cur)[v].addr]]
    ensures Copied(g1, m1, g4, m4, Flat(g1, child)[v].addr, Flat(g1, cur)[v].addr)
  {
    hide Flat;
    var p, q := Flat(g1, child)[v].addr, Flat(g1, cur)[v].addr;
    assert Flat(g4, cur) == Flat(g1, cur);
    forall e: nat, v': nat | v' in Flat(g1, e) && Flat(g1, e)[v'].addr != p
      ensures Flat(g1, e)[v'].addr < |m1| && m4[Flat(g1, e)[v'].addr] == m1[Flat(g1, e)[v'].addr]
    {
      assert v' in Flat(g2, e) && Flat(g2, e)[v'] == Flat(g1, e)[v'];
    }
    assert m4[p] == m3[p];
  }

  /** The copying half of dup_or_share. */
  method Duplicate(k: Kernel, c: nat, pid: int, va: nat, perm: Flags, ghost child: nat) returns (ok: bool)
    requires InSyscall(k, c) && IsChild(k, c, pid, child) && UserPage(va) && va != UTEMP && perm.w
    requires PGNUM(va) in Flat(k.g, k.cpus[c].env.value) && PGNUM(UTEMP) !in Flat(k.g, k.cpus[c].env.value)
    modifies k`pages, k`pageFreeList, k`mem, k`free, k`tlbs, k`g
    ensures old(k.TlbOk()) ==> k.TlbOk()
    ensures InSyscall(k, c)
    ensures ok ==> PGNUM(va) in Flat(k.g, child)
    ensures ok ==>
      var p, q := Flat(k.g, child)[PGNUM(va)].addr, Flat(old(k.g), k.cpus[c].env.value)[PGNUM(va)].addr;
      && GaveChild(old(k.g), k.g, child, PGNUM(va), Word(p, perm)) && NotMapped(old(k.g), p)
      && KeptElsewhere(old(k.g), old(k.mem), k.mem, child, PGNUM(va))
      && p < |k.mem| && q < |old(k.mem)| && k.mem[p] == old(k.mem)[q]
    ensures ok ==>
      && Pde(k.cpus[c].env.value, PDX(UTEMP)) in k.g
      && Spent(old(k.C()), old(k.g), k.C(), k.g, Flat(old(k.g), k.cpus[c].env.value),
               2 + TableCost(old(k.g), k.cpus[c].env.value, UTEMP), 1)
    ensures PermOk(Word(0, perm)) && |old(k.free)| >= 2 + TableCost(old(k.g), k.cpus[c].env.value, UTEMP) ==> ok
  {
    hide Inv, EnvInv, Coherent, Flat, SameMapped, NotMapped, Copied, KeptElsewhere, Spent, Cost;
    ghost var cur, v, c0, g0, m0 := k.cpus[c].env.value, PGNUM(va), k.C(), k.g, k.mem;
    var rc := SysPageAlloc(k, c, pid, va, Word(0, perm));
    if rc < 0 {
      return false;
    }
    ghost var p, c1, g1, m1 := Flat(k.g, child)[v].addr, k.C(), k.g, k.mem;
    CallCosts(c0, g0, m0, k.boot, c1, g1, cur, TableCost(g0, child, va) + 1, None);
    AllocLeaves(c0, g0, c1, g1, TableCost(g0, child, va) + 1, cur);
    UnreferencedIsUnmapped(g0, p);
    LookupReads(g1, child, va);
    SameMappedContents(g0, k.boot, m0, m1);
    ok := CopyThroughUtemp(k, c, pid, va, perm, child);
    if ok {
      AllocThenCopy(g0, m0, g1, m1, k.g, k.mem, cur, child, v, Word(p, perm));
      SpentThen(c0, g0, c1, g1, k.C(), k.g, Flat(g0, cur), TableCost(g0, child, va) + 1, 0, TableCost(g1, cur, UTEMP),
                1);
      SpentLess(c0, g0, k.C(), k.g, Flat(g0, cur), TableCost(g0, child, va) + 1 + TableCost(g1, cur, UTEMP), 1,
                2 + TableCost(g0, cur, UTEMP), 1);
    }
  }

  lemma AllocLeaves(c: Counts, g: Graph, c': Counts, g': Graph, n: nat, e: nat)
    requires Cost(c, g, c', g', n, None)
    ensures TableCost(g', e, UTEMP) <= TableCost(g, e, UTEMP) && |c'.free| >= |c.free| - n
  {
  }

  /** Allocating page `w.addr` for the child, then copying into it. */
  lemma AllocThenCopy(g: Graph, m: seq<Frame>, g1: Graph, m1: seq<Frame>, g2: Graph, m2: seq<Frame>,
                      cur: nat, child: nat, v: nat, w: Word)
    requires cur != child && v in Flat(g, cur) && NotMapped(g, w.addr)
    requires GaveChild(g, g1, child, v, w) && Kept(g, m, m1)
    requires v in Flat(g1, cur) && Copied(g1, m1, g2, m2, w.addr, Flat(g1, cur)[v].addr)
    ensures GaveChild(g, g2, child, v, w) && KeptElsewhere(g, m, m2, child, v)
    ensures w.addr < |m2| && Flat(g, cur)[v].addr < |m| && m2[w.addr] == m[Flat(g, cur)[v].addr]
  {
    hide Flat;
    assert Flat(g1, cur)[v] == Flat(g, cur)[v];
    forall e: nat, v': nat | v' in Flat(g, e) && (e != child || v' != v)
      ensures Flat(g, e)[v'].addr < |m| && m2[Flat(g, e)[v'].addr] == m[Flat(g, e)[v'].addr]
    {
      assert v' in Flat(g1, e) && Flat(g1, e)[v'] == Flat(g, e)[v'];
    }
  }

  /** What dup_or_share gives the child at page `v`: the caller's own page, or a page of its own with equal contents. */
  ghost predicate Given(g: Graph, m: seq<Frame>, g': Graph, m': seq<Frame>, cur: nat, child: nat, v: nat, perm: Flags)
    requires v in Flat(g, cur)
  {
    var q := Flat(g, cur)[v].addr;
    && v in Flat(g', child)
    && var w := Flat(g', child)[v];
      && w.flags == perm && w.addr < |m'| && q < |m|
      && GaveChild(g, g', child, v, w)
      && KeptElsewhere(g, m, m', child, v)
      && if Shared(perm) then w.addr == q else NotMapped(g, w.addr) && m'[w.addr] == m[q]
  }

  /** What one page costs: at most itself and a table, and once a table for UTEMP. */
  ghost predicate PageCost(c: Counts, g: Graph, c': Counts, g': Graph, cur: nat) {
    && TableCost(g', cur, UTEMP) <= TableCost(g, cur, UTEMP)
    && Spent(c, g, c', g', Flat(g, cur), 2 + TableCost(g, cur, UTEMP) - TableCost(g', cur, UTEMP), 1)
  }

  lemma TablesStay(c: Counts, g: Graph, c': Counts, g': Graph, F: map<nat, Word>, n: nat, m: nat, e: nat)
    requires Spent(c, g, c', g', F, n, m)
    ensures TableCost(g', e, UTEMP) <= TableCost(g, e, UTEMP)
  {
  }

  lemma GivenMeans(g: Graph, m: seq<Frame>, g': Graph, m': seq<Frame>, cur: nat, child: nat, v: nat, perm: Flags)
    requires v in Flat(g, cur) && Given(g, m, g', m', cur, child, v, perm) && child != cur
    ensures var q := Flat(g, cur)[v].addr;
      && v in Flat(g', child) && q < |m| && Flat(g', child)[v].addr < |m'|
      && (Flat(g', child)[v].addr == q <==> !perm.w || perm.mapped) && m'[Flat(g', child)[v].addr] == m[q]
  {
    hide Flat;
  }

  /** dup_or_share; `ok` is false when it panics. */
  method DupOrShare(k: Kernel, c: nat, pid: int, va: nat, perm: Flags, ghost child: nat) returns (ok: bool)
    requires InSyscall(k, c) && IsChild(k, c, pid, child) && UserPage(va) && va != UTEMP
    requires PGNUM(va) in Flat(k.g, k.cpus[c].env.value) && PGNUM(UTEMP) !in Flat(k.g, k.cpus[c].env.value)
    modifies k`pages, k`pageFreeList, k`mem, k`free, k`tlbs, k`g
    ensures old(k.TlbOk()) ==> k.TlbOk()
    ensures InSyscall(k, c) && IsChild(k, c, pid, child)
    ensures ok ==> Given(old(k.g), old(k.mem), k.g, k.mem, k.cpus[c].env.value, child, PGNUM(va), perm)
    ensures ok ==>
      var f := Flat(old(k.g), k.cpus[c].env.value)[PGNUM(va)];
      && PGNUM(va) in Flat(k.g, child) && f.addr < |old(k.mem)| && Flat(k.g, child)[PGNUM(va)].addr < |k.mem|
      && (Flat(k.g, child)[PGNUM(va)].addr == f.addr <==> !perm.w || perm.mapped)
      && k.mem[Flat(k.g, child)[PGNUM(va)].addr] == old(k.mem)[f.addr]
    ensures ok ==> PageCost(old(k.C()), old(k.g), k.C(), k.g, k.cpus[c].env.value)
    ensures
      var F := Flat(old(k.g), k.cpus[c].env.value); var n := 2 + TableCost(old(k.g), k.cpus[c].env.value, UTEMP);
      PermOk(Word(0, perm)) && (perm.w && perm.mapped ==> F[PGNUM(va)].flags.w) && Enough(old(k.C()), F, n, 1) ==> ok
  {
    hide Inv, EnvInv, Coherent, Flat, NotMapped, KeptElsewhere, Spent;
    MappedPage(k.C(), k.g, k.mem, k.boot, k.cpus[c].env.value, va);
    if !perm.p {
      return false;
    }
    if !perm.w || perm.mapped {
      ok := Share(k, c, pid, va, perm, child);
      if ok {
        ghost var cur := k.cpus[c].env.value;
        TablesStay(old(k.C()), old(k.g), k.C(), k.g, Flat(old(k.g), cur), 1, 1, cur);
        SpentLess(old(k.C()), old(k.g), k.C(), k.g, Flat(old(k.g), cur), 1, 1,
                  2 + TableCost(old(k.g), cur, UTEMP) - TableCost(k.g, cur, UTEMP), 1);
      }
    } else {
      ok := Duplicate(k, c, pid, va, perm, child);
    }
    if ok {
      Sizes(k.C(), k.g, k.mem, k.boot, NOTHING);
      GivenMeans(old(k.g), old(k.mem), k.g, k.mem, k.cpus[c].env.value, child, PGNUM(va), perm);
    }
  }

  const VGA_PN := PGNUM(VGA_USER)
  const VGA_WORD := Word(VGA_PAGE, VGA_FLAGS)

  /** Page `v` of the child against page `v` of the parent's map `F` over memory `m0`: equal PTE_SYSCALL bits; the
      same page if it was read-only or PTE_MAPPED, else a page mapped nowhere else, with equal contents. */
  ghost predicate CopyOf(F: map<nat, Word>, m0: seq<Frame>, g: Graph, m: seq<Frame>, child: nat, v: nat)
    requires v in F
  {
    && v in Flat(g, child)
    && var w := Flat(g, child)[v];
      && w.flags == SyscallBits(F[v].flags) && w.addr < |m| && F[v].addr < |m0|
      && if Shared(F[v].flags) then w.addr == F[v].addr else Private(g, child, v) && m[w.addr] == m0[F[v].addr]
  }

  /** Everybody but the child sees what they saw, and the parent's pages have their contents. */
  ghost predicate ParentKept(g0: Graph, m0: seq<Frame>, g: Graph, m: seq<Frame>, cur: nat, child: nat) {
    && (forall e: nat | e != child :: Flat(g, e) == Flat(g0, e))
    && |m| == |m0|
    && forall v: nat | v in Flat(g0, cur) ::
         Flat(g0, cur)[v].addr < |m0| && m[Flat(g0, cur)[v].addr] == m0[Flat(g0, cur)[v].addr]
  }

  /** The pages below `n` have been copied; the child has nothing else but the screen. */
  ghost predicate Progress(g0: Graph, m0: seq<Frame>, g: Graph, m: seq<Frame>, cur: nat, child: nat, n: nat) {
    var F := Flat(g0, cur);
    && ParentKept(g0, m0, g, m, cur, child)
    && (forall v: nat :: v in Flat(g, child) <==> v == VGA_PN || (v in F && v < n))
    && (forall v: nat | v in F && v < n :: CopyOf(F, m0, g, m, child, v))
    && (!(VGA_PN in F && VGA_PN < n) ==> Flat(g, child)[VGA_PN] == VGA_WORD)
  }

  /** How fork_v0 leaves the two environments: page `sp` is the stack page, copied once more at the end. */
  ghost predicate Forked(g0: Graph, m0: seq<Frame>, g: Graph, m: seq<Frame>, cur: nat, child: nat, sp: nat) {
    var F := Flat(g0, cur);
    && ParentKept(g0, m0, g, m, cur, child)
    && (forall v: nat :: v in Flat(g, child) <==> v == VGA_PN || v in F)
    && (forall v: nat | v in F && v != sp :: CopyOf(F, m0, g, m, child, v))
    && (VGA_PN !in F ==> Flat(g, child)[VGA_PN] == VGA_WORD)
    && sp in F && Private(g, child, sp) && Flat(g, child)[sp].flags == PWU
    && Flat(g, child)[sp].addr < |m| && m[Flat(g, child)[sp].addr] == m0[F[sp].addr]
  }

  lemma ParentStaysKept(g0: Graph, m0: seq<Frame>, g: Graph, m: seq<Frame>, g': Graph, m': seq<Frame>,
                        cur: nat, child: nat, v: nat, perm: Flags)
    requires cur != child && ParentKept(g0, m0, g, m, cur, child)
    requires v in Flat(g, cur) && Given(g, m, g', m', cur, child, v, perm)
    ensures ParentKept(g0, m0, g', m', cur, child)
  {
    hide Flat;
  }

  /** A copy made earlier survives the copying of another page. */
  lemma CopySurvives(g0: Graph, m0: seq<Frame>, g: Graph, m: seq<Frame>, g': Graph, m': seq<Frame>,
                     cur: nat, child: nat, v: nat, n: nat, perm: Flags)
    requires cur != child && ParentKept(g0, m0, g, m, cur, child)
    requires v in Flat(g0, cur) && CopyOf(Flat(g0, cur), m0, g, m, child, v)
    requires v != n && n in Flat(g, cur) && Given(g, m, g', m', cur, child, n, perm)
    ensures CopyOf(Flat(g0, cur), m0, g', m', child, v)
  {
    hide Flat;
    var w := Flat(g, child)[v];
    assert Flat(g', child)[v] == w;
    if !Shared(Flat(g0, cur)[v].flags) {
      forall e': nat, v': nat | v' in Flat(g', e') && (e' != child || v' != v)
        ensures Flat(g', e')[v'].addr != w.addr
      {
        if e' != child || v' != n {
          assert v' in Flat(g, e') && Flat(g, e')[v'] == Flat(g', e')[v'];
        } else if Shared(perm) {
          assert n in Flat(g, cur) && Flat(g, cur)[n].addr == Flat(g', child)[n].addr;
        }
      }
    }
  }

  /** A page copied just now belongs to the child alone. */
  lemma NewCopyIsPrivate(g: Graph, m: seq<Frame>, g': Graph, m': seq<Frame>, cur: nat, child: nat, v: nat, perm: Flags)
    requires v in Flat(g, cur) && Given(g, m, g', m', cur, child, v, perm) && !Shared(perm)
    ensures Private(g', child, v)
  {
    hide Flat;
    forall e': nat, v': nat | v' in Flat(g', e') && (e' != child || v' != v)
      ensures Flat(g', e')[v'].addr != Flat(g', child)[v].addr
    {
      assert v' in Flat(g, e') && Flat(g, e')[v'] == Flat(g', e')[v'];
    }
  }

  lemma ProgressStep(g0: Graph, m0: seq<Frame>, g: Graph, m: seq<Frame>, g': Graph, m': seq<Frame>,
                     cur: nat, child: nat, n: nat)
    requires cur != child && Progress(g0, m0, g, m, cur, child, n) && n in Flat(g0, cur)
    requires Given(g, m, g', m', cur, child, n, SyscallBits(Flat(g0, cur)[n].flags))
    ensures Progress(g0, m0, g', m', cur, child, n + 1)
  {
    hide Flat, CopyOf, KeptElsewhere, NotMapped, Private;
    var perm := SyscallBits(Flat(g0, cur)[n].flags);
    ParentStaysKept(g0, m0, g, m, g', m', cur, child, n, perm);
    forall v: nat | v in Flat(g0, cur) && v < n + 1 ensures CopyOf(Flat(g0, cur), m0, g', m', child, v) {
      if v < n {
        CopySurvives(g0, m0, g, m, g', m', cur, child, v, n, perm);
      } else {
        NewCopy(g0, m0, g, m, g', m', cur, child, n);
      }
    }
  }

  lemma NewCopy(g0: Graph, m0: seq<Frame>, g: Graph, m: seq<Frame>, g': Graph, m': seq<Frame>, cur: nat, child: nat,
                n: nat)
    requires cur != child && ParentKept(g0, m0, g, m, cur, child) && n in Flat(g0, cur)
    requires Given(g, m, g', m', cur, child, n, SyscallBits(Flat(g0, cur)[n].flags))
    ensures CopyOf(Flat(g0, cur), m0, g', m', child, n)
  {
    hide Flat;
    if !Shared(Flat(g0, cur)[n].flags) {
      NewCopyIsPrivate(g, m, g', m', cur, child, n, SyscallBits(Flat(g0, cur)[n].flags));
    }
  }

  lemma StackStep(g0: Graph, m0: seq<Frame>, g: Graph, m: seq<Frame>, g': Graph, m': seq<Frame>,
                  cur: nat, child: nat, sp: nat)
    requires cur != child && Progress(g0, m0, g, m, cur, child, USER_PAGES) && sp in Flat(g0, cur)
    requires Given(g, m, g', m', cur, child, sp, PWU)
    ensures Forked(g0, m0, g', m', cur, child, sp)
  {
    hide CopyOf, KeptElsewhere, NotMapped, Private;
    ParentStaysKept(g0, m0, g, m, g', m', cur, child, sp, PWU);
    NewCopyIsPrivate(g, m, g', m', cur, child, sp, PWU);
    forall v: nat | v in Flat(g0, cur) && v != sp ensures CopyOf(Flat(g0, cur), m0, g', m', child, v) {
      CopySurvives(g0, m0, g, m, g', m', cur, child, v, sp, PWU);
    }
  }

  /** sys_exofork leaves the parent as it was and the child with the screen alone. */
  lemma ProgressStart(g0: Graph, m0: seq<Frame>, g: Graph, m: seq<Frame>, cur: nat, child: nat, d: nat)
    requires Dir(child) !in g0 && Flat(g0, child) == map[]
    requires Remapped(g0[Dir(child) := Word(d, NO_FLAGS)], g, child, VGA_USER, VGA_WORD)
    requires Kept(g0, m0, m) && cur != child
    ensures Progress(g0, m0, g, m, cur, child, 0)
  {
    SamePages(g0, g0[Dir(child) := Word(d, NO_FLAGS)]);
  }

  /** The parent's reading of uvpd and uvpt: its own directory and tables. */
  method ReadUvpt(k: Kernel, e: nat, pn: nat) returns (r: Option<Word>)
    requires k.PageInv(NOTHING) && k.EnvsInv() && e < NENV == |k.envs| && k.envs[e].status != Free && pn < USER_PAGES
    ensures r == if pn in Flat(k.g, e) then Some(Flat(k.g, e)[pn]) else None
  {
    hide Inv, EnvInv, Coherent, Flat;
    SlotInUse(k.envs, k.envFreeList, k.envFree, k.allocs, k.g, e);
    var pdx := (pn - pn % NPTENTRIES) / NPTENTRIES;
    IndexesOfPageNumber(pn * PGSIZE);
    WalkIsFlat(k.C(), k.g, k.mem, k.boot, NOTHING, e, pn * PGSIZE);
    var pde := k.mem[k.envs[e].pgdir.value][pdx];
    if pde.flags.p {
      var pte := k.mem[pde.addr][pn % NPTENTRIES];
      if pte.flags.p {
        return Some(pte);
      }
    }
    return None;
  }

  lemma ProgressKeepsParent(g0: Graph, m0: seq<Frame>, g: Graph, m: seq<Frame>, cur: nat, child: nat, n: nat)
    requires Progress(g0, m0, g, m, cur, child, n)
    ensures ParentKept(g0, m0, g, m, cur, child)
  {
  }

  lemma ProgressSkip(g0: Graph, m0: seq<Frame>, g: Graph, m: seq<Frame>, cur: nat, child: nat, n: nat)
    requires Progress(g0, m0, g, m, cur, child, n) && n !in Flat(g0, cur)
    ensures Progress(g0, m0, g, m, cur, child, n + 1)
  {
  }

  lemma ChildResolves(k: Kernel, c: nat, pid: int, child: nat)
    requires InSyscall(k, c) && child < NENV && child != k.cpus[c].env.value && k.envs[child].status != Free
    requires k.envs[child].id == pid != 0 && k.envs[child].parent == k.envs[k.cpus[c].env.value].id
    ensures IsChild(k, c, pid, child)
  {
    LiveIds(k.envs, k.envFreeList, k.envFree, k.allocs, k.g, child, child);
  }

  /** How many of the page numbers below `n` are mapped. */
  ghost function MappedBelow(F: map<nat, Word>, n: nat): nat {
    if n == 0 then 0 else MappedBelow(F, n - 1) + if n - 1 in F then 1 else 0
  }

  lemma OneMoreMapped(F: map<nat, Word>, n: nat)
    ensures MappedBelow(F, n + 1) == MappedBelow(F, n) + if n in F then 1 else 0
  {
  }

  lemma {:induction false} MappedMonotone(F: map<nat, Word>, n: nat, n': nat)
    requires n <= n'
    ensures MappedBelow(F, n) <= MappedBelow(F, n')
    decreases n' - n
  {
    if n < n' {
      MappedMonotone(F, n, n' - 1);
    }
  }

  /** All that copying the pages below `n` has cost. */
  ghost predicate PagesCost(c: Counts, g: Graph, c': Counts, g': Graph, F: map<nat, Word>, cur: nat, n: nat) {
    && TableCost(g', cur, UTEMP) <= TableCost(g, cur, UTEMP)
    && Spent(c, g, c', g', F, 2 * MappedBelow(F, n) + TableCost(g, cur, UTEMP) - TableCost(g', cur, UTEMP),
             MappedBelow(F, n))
  }

  /** Every page may be handed to a system call. */
  ghost predicate UserPages(F: map<nat, Word>) {
    forall v | v in F :: F[v].flags.u
  }

  lemma PagesCostStart(c: Counts, g: Graph, F: map<nat, Word>, cur: nat)
    ensures PagesCost(c, g, c, g, F, cur, 0)
  {
  }

  lemma PagesCostNext(c: Counts, g: Graph, c1: Counts, g1: Graph, c2: Counts, g2: Graph, F: map<nat, Word>, cur: nat,
                      n: nat)
    requires PagesCost(c, g, c1, g1, F, cur, n)
    requires PageMapped(c1, g1, c2, g2, F, cur, n)
    ensures PagesCost(c, g, c2, g2, F, cur, n + 1)
  {
    hide Flat, Spent, MappedBelow, TableCost;
    OneMoreMapped(F, n);
    if n in F {
      SpentThen(c, g, c1, g1, c2, g2, F, 2 * MappedBelow(F, n) + TableCost(g, cur, UTEMP) - TableCost(g1, cur, UTEMP),
                MappedBelow(F, n), 2 + TableCost(g1, cur, UTEMP) - TableCost(g2, cur, UTEMP), 1);
    }
  }

  /** What is enough for all pages is enough for the next one. */
  lemma EnoughForNext(c: Counts, g: Graph, c1: Counts, g1: Graph, F: map<nat, Word>, cur: nat, n: nat)
    requires PagesCost(c, g, c1, g1, F, cur, n) && n in F && n < USER_PAGES
    requires Enough(c, F, 2 * MappedBelow(F, USER_PAGES) + TableCost(g, cur, UTEMP), MappedBelow(F, USER_PAGES))
    ensures Enough(c1, F, 2 + TableCost(g1, cur, UTEMP), 1)
  {
    hide Spent, MappedBelow, TableCost;
    OneMoreMapped(F, n);
    MappedMonotone(F, n + 1, USER_PAGES);
    EnoughLeft(c, g, c1, g1, F, 2 * MappedBelow(F, n) + TableCost(g, cur, UTEMP) - TableCost(g1, cur, UTEMP),
               MappedBelow(F, n), 2 * MappedBelow(F, USER_PAGES) + TableCost(g, cur, UTEMP), MappedBelow(F,
                           USER_PAGES));
  }

  /** One round of the loop of fork_v0. */
  method CopyPage(k: Kernel, c: nat, pid: int, va: nat, ghost cur: nat, ghost child: nat, ghost g0: Graph,
                  ghost m0: seq<Frame>) returns (ok: bool)
    requires c < |k.cpus| && k.cpus[c].env == Some(cur) && UserPage(va)
    requires InSyscall(k, c) && IsChild(k, c, pid, child)
    requires Progress(g0, m0, k.g, k.mem, cur, child, PGNUM(va)) && PGNUM(UTEMP) !in Flat(g0, cur)
    modifies k`pages, k`pageFreeList, k`mem, k`free, k`tlbs, k`g
    ensures old(k.TlbOk()) ==> k.TlbOk()
    ensures InSyscall(k, c) && IsChild(k, c, pid, child)
    ensures ok ==> Progress(g0, m0, k.g, k.mem, cur, child, PGNUM(va) + 1)
    ensures ok ==> PageMapped(old(k.C()), old(k.g), k.C(), k.g, Flat(g0, cur), cur, PGNUM(va))
    ensures
      var F := Flat(g0, cur); var n := 2 + TableCost(old(k.g), cur, UTEMP);
      (PGNUM(va) in F ==> F[PGNUM(va)].flags.u && Enough(old(k.C()), F, n, 1)) ==> ok
  {
    hide Inv, EnvInv, Coherent, Flat, Progress, Given, IdAfter, PageCost, Enough, TableCost;
    ghost var n, g, m := PGNUM(va), k.g, k.mem;
    assert ParentKept(g0, m0, g, m, cur, child) by { ProgressKeepsParent(g0, m0, g, m, cur, child, n); }
    var pte := ReadUvpt(k, k.cpus[c].env.value, PGNUM(va));
    if pte == None {
      ProgressSkip(g0, m0, g, m, cur, child, n);
      return true;
    }
    var perm := SyscallBits(pte.value.flags);
    EntriesPresent(k.C(), k.g, k.mem, k.boot, cur, n);
    ok := DupOrShare(k, c, pid, va, perm, child);
    if ok {
      ProgressStep(g0, m0, g, m, k.g, k.mem, cur, child, n);
    }
  }

  /** What one round costs: nothing if the page is not mapped. */
  ghost predicate PageMapped(c: Counts, g: Graph, c': Counts, g': Graph, F: map<nat, Word>, cur: nat, n: nat) {
    if n in F then F == Flat(g, cur) && PageCost(c, g, c', g', cur) else c' == c && g' == g
  }

  /** The loop of fork_v0 over all pages below UTOP. */
  method CopyPages(k: Kernel, c: nat, pid: int, ghost cur: nat, ghost child: nat, ghost g0: Graph,
                   ghost m0: seq<Frame>) returns (ok: bool)
    requires c < |k.cpus| && k.cpus[c].env == Some(cur)
    requires Serving(k, c) && InSyscall(k, c) && IsChild(k, c, pid, child)
    requires Progress(g0, m0, k.g, k.mem, cur, child, 0) && PGNUM(UTEMP) !in Flat(g0, cur)
    modifies k`pages, k`pageFreeList, k`mem, k`free, k`tlbs, k`g
    ensures Serving(k, c) && InSyscall(k, c) && IsChild(k, c, pid, child)
    ensures ok ==> Progress(g0, m0, k.g, k.mem, cur, child, USER_PAGES)
    ensures
      var F := Flat(g0, cur); var n := MappedBelow(F, USER_PAGES);
      && (ok ==> PagesCost(old(k.C()), old(k.g), k.C(), k.g, F, cur, USER_PAGES))
      && (UserPages(F) && Enough(old(k.C()), F, 2 * n + TableCost(old(k.g), cur, UTEMP), n) ==> ok)
  {
    hide Inv, EnvInv, Coherent, Flat, Progress, IdAfter, PagesCost, PageMapped, Enough, MappedBelow, TableCost,
         RunOk, MailOk, LogOk;
    ghost var c1, g1, F := k.C(), k.g, Flat(g0, cur);
    ghost var enough := UserPages(F) &&
      Enough(c1, F, 2 * MappedBelow(F, USER_PAGES) + TableCost(g1, cur, UTEMP), MappedBelow(F, USER_PAGES));
    PagesCostStart(c1, g1, F, cur);
    var va := 0;
    while va < UTOP
      invariant va % PGSIZE == 0 && 0 <= va <= UTOP
      invariant InSyscall(k, c) && IsChild(k, c, pid, child) && (old(k.TlbOk()) ==> k.TlbOk())
      invariant Progress(g0, m0, k.g, k.mem, cur, child, PGNUM(va))
      invariant PagesCost(c1, g1, k.C(), k.g, F, cur, PGNUM(va))
    {
      ghost var n, cn, g := PGNUM(va), k.C(), k.g;
      if enough && n in F {
        EnoughForNext(c1, g1, cn, g, F, cur, n);
      }
      ok := CopyPage(k, c, pid, va, cur, child, g0, m0);
      if !ok {
        PagesOnly(k, c, k.envs, k.cpus, k.mail);
        return;
      }
      PagesCostNext(c1, g1, cn, g, k.C(), k.g, F, cur, n);
      va := va + PGSIZE;
      assert PGNUM(va) == n + 1;
    }
    PagesOnly(k, c, k.envs, k.cpus, k.mail);
    return true;
  }

  /** The sys_exofork of fork_v0: a child that sees nothing but the screen. */
  method MakeChild(k: Kernel, c: nat, ghost cur: nat) returns (pid: int, ok: bool, ghost child: nat)
    requires c < |k.cpus| && k.cpus[c].env == Some(cur) && Serving(k, c) && InSyscall(k, c)
    requires ScreenHasRoom(k)
    modifies k`pages, k`pageFreeList, k`mem, k`free, k`tlbs, k`g, k`envs, k`envFreeList, k`envFree, k`allocs, k`mail
    ensures ok ==> Serving(k, c)
    ensures ok ==> child < |k.envs| && k.envs[child].status == NotRunnable && !k.envs[child].recving
    ensures ok ==>
      && InSyscall(k, c) && IsChild(k, c, pid, child) && pid == k.envs[child].id > 0
      && Progress(old(k.g), old(k.mem), k.g, k.mem, cur, child, 0)
      && |old(k.envs)| == NENV && k.envs[child].tf == Trapframe(0, old(k.envs)[cur].tf.rest)
      && forall e | 0 <= e < NENV && e != child :: k.envs[e] == old(k.envs)[e]
    ensures ok ==> Spent(old(k.C()), old(k.g), k.C(), k.g, Flat(old(k.g), cur), 2, 1)
    ensures old(k.envFree) != [] && |old(k.free)| >= 2 ==> ok
  {
    hide Inv, EnvInv, Coherent, Flat, SameMapped, Progress, Remapped, IdAfter, Spent, Cost, RunOk, MailOk, LogOk, Grows,
         SameAllocs;
    MailSizes(k.envs, k.mail, k.allocs, k.sent);
    EnvSizes(k.envs, k.envFreeList, k.envFree, k.allocs, k.g);
    if k.envFree != [] {
      NewIdPositive(k.envs, k.envFreeList, k.envFree, k.allocs, k.g, k.envFree[0]);
    }
    child := if k.envFree == [] then 0 else k.envFree[0];
    var r := SysExofork(k, c);
    if r.Panic? || r.NullPage? || r.code < 0 {
      return 0, false, child;
    }
    RecordBirth(k, c, child, old(k.envs), old(k.allocs));
    PagesOnly(k, c, k.envs, k.cpus, k.mail);
    ChildResolves(k, c, r.code, child);
    SameMappedContents(old(k.g), k.boot, old(k.mem), k.mem);
    ProgressStart(old(k.g), old(k.mem), k.g, k.mem, cur, child, old(k.free)[0]);
    CallCosts(old(k.C()), old(k.g), old(k.mem), k.boot, k.C(), k.g, cur, 2, Some(VGA_PAGE));
    return r.code, true, child;
  }

  /** The last steps of fork_v0: copying the stack page once more, and starting the child. */
  method StartChild(k: Kernel, c: nat, pid: int, sp: nat, ghost cur: nat, ghost child: nat, ghost g0: Graph,
                    ghost m0: seq<Frame>) returns (ok: bool)
    requires c < |k.cpus| && k.cpus[c].env == Some(cur) && sp < UTOP
    requires Serving(k, c) && InSyscall(k, c) && IsChild(k, c, pid, child)
    requires k.envs[child].status == NotRunnable && !k.envs[child].recving
    requires Progress(g0, m0, k.g, k.mem, cur, child, USER_PAGES)
    requires PGNUM(UTEMP) !in Flat(g0, cur) && PGNUM(sp) in Flat(g0, cur)
    modifies k`pages, k`pageFreeList, k`mem, k`free, k`tlbs, k`g, k`envs
    ensures ok ==> Serving(k, c)
    ensures ok ==> InSyscall(k, c) && IsChild(k, c, pid, child) && Forked(g0, m0, k.g, k.mem, cur, child, PGNUM(sp))
    ensures ok ==>
      child < |old(k.envs)| == NENV && k.envs == old(k.envs)[child := old(k.envs)[child].(status := Runnable)]
    ensures Enough(old(k.C()), Flat(g0, cur), 2 + TableCost(old(k.g), cur, UTEMP), 1) ==> ok
  {
    hide Inv, EnvInv, Coherent, Flat, Progress, Forked, Given, IdAfter, Enough, TableCost, PageCost, RunOk, MailOk,
         LogOk;
    ghost var g, m := k.g, k.mem;
    ProgressKeepsParent(g0, m0, g, m, cur, child, USER_PAGES);
    assert PGNUM(sp - sp % PGSIZE) == PGNUM(sp);
    ok := DupOrShare(k, c, pid, sp - sp % PGSIZE, PWU, child);
    if ok {
      StackStep(g0, m0, g, m, k.g, k.mem, cur, child, PGNUM(sp));
      PagesOnly(k, c, k.envs, k.cpus, k.mail);
      NotElsewhere(k.envs, k.cpus, c, k.boot.kern, child);
      var rc := SetStatus(k, c, pid, Runnable);
      ok := rc == Returns(0);
    }
  }

  /** What is enough for a fork: a slot; pages that may be handed to system calls; for each of them a free page for a
      copy and one for a table, and five more for the directory and table of the child, a table at UTEMP, and the stack
      page; and room to count each page once for every page and twice more. */
  ghost predicate CanFork(c: Counts, slots: nat, F: map<nat, Word>) {
    slots > 0 && UserPages(F) && Enough(c, F, 2 * MappedBelow(F, USER_PAGES) + 5, MappedBelow(F, USER_PAGES) + 2)
  }

  lemma EnoughToCopy(c: Counts, g: Graph, c1: Counts, g1: Graph, F: map<nat, Word>, slots: nat, cur: nat)
    requires CanFork(c, slots, F) && Spent(c, g, c1, g1, F, 2, 1)
    ensures var n := MappedBelow(F, USER_PAGES);
      Enough(c1, F, 2 * n + 3, n + 1) && Enough(c1, F, 2 * n + TableCost(g1, cur, UTEMP), n)
  {
    hide Spent, MappedBelow;
    EnoughLeft(c, g, c1, g1, F, 2, 1, 2 * MappedBelow(F, USER_PAGES) + 5, MappedBelow(F, USER_PAGES) + 2);
  }

  lemma EnoughForStack(c1: Counts, g1: Graph, c2: Counts, g2: Graph, F: map<nat, Word>, cur: nat)
    requires Enough(c1, F, 2 * MappedBelow(F, USER_PAGES) + 3, MappedBelow(F, USER_PAGES) + 1)
    requires PagesCost(c1, g1, c2, g2, F, cur, USER_PAGES)
    ensures Enough(c2, F, 2 + TableCost(g2, cur, UTEMP), 1)
  {
    hide Spent, MappedBelow;
    EnoughLeft(c1, g1, c2, g2, F,
               2 * MappedBelow(F, USER_PAGES) + TableCost(g1, cur, UTEMP) - TableCost(g2, cur, UTEMP),
               MappedBelow(F, USER_PAGES), 2 * MappedBelow(F, USER_PAGES) + 3, MappedBelow(F, USER_PAGES) + 1);
  }

  /** fork_v0 from the loop on. */
  method FillChild(k: Kernel, c: nat, pid: int, sp: nat, ghost cur: nat, ghost child: nat, ghost g0: Graph,
                   ghost m0: seq<Frame>) returns (ok: bool)
    requires c < |k.cpus| && k.cpus[c].env == Some(cur) && sp < UTOP
    requires Serving(k, c) && InSyscall(k, c) && IsChild(k, c, pid, child)
    requires k.envs[child].status == NotRunnable && !k.envs[child].recving
    requires Progress(g0, m0, k.g, k.mem, cur, child, 0)
    requires PGNUM(UTEMP) !in Flat(g0, cur) && PGNUM(sp) in Flat(g0, cur)
    modifies k`pages, k`pageFreeList, k`mem, k`free, k`tlbs, k`g, k`envs
    ensures ok ==> Serving(k, c)
    ensures ok ==> InSyscall(k, c) && IsChild(k, c, pid, child) && Forked(g0, m0, k.g, k.mem, cur, child, PGNUM(sp))
    ensures ok ==>
      child < |old(k.envs)| == NENV && k.envs == old(k.envs)[child := old(k.envs)[child].(status := Runnable)]
    ensures
      var F := Flat(g0, cur); var n := MappedBelow(F, USER_PAGES);
      (&& UserPages(F) && Enough(old(k.C()), F, 2 * n + 3, n + 1)
       && Enough(old(k.C()), F, 2 * n + TableCost(old(k.g), cur, UTEMP), n)) ==> ok
  {
    hide Inv, EnvInv, Coherent, Flat, Progress, Forked, MappedBelow, Spent, PagesCost, TableCost, RunOk, MailOk, LogOk,
         Serving, Enough, UserPages;
    ghost var F, n := Flat(g0, cur), MappedBelow(Flat(g0, cur), USER_PAGES);
    ghost var c1, g1 := k.C(), k.g;
    ghost var enough := Enough(c1, F, 2 * n + 3, n + 1);
    ok := CopyPages(k, c, pid, cur, child, g0, m0);
    if ok && enough {
      EnoughForStack(c1, g1, k.C(), k.g, F, cur);
    }
    if ok {
      ok := StartChild(k, c, pid, sp, cur, child, g0, m0);
    }
  }

  /** The child's entry `w` for a page that the parent has as `f`: the same page exactly if the parent cannot write to
      it or has it PTE_MAPPED; either way it holds now what the parent's held, with the parent's P, W, U and AVAIL
      bits. */
  ghost predicate ChildEntry(f: Word, m0: seq<Frame>, w: Word, m: seq<Frame>) {
    && (w.addr == f.addr <==> !f.flags.w || f.flags.mapped)
    && f.addr < |m0| && w.addr < |m| && m[w.addr] == m0[f.addr]
    && w.flags == Flags(f.flags.p, f.flags.w, f.flags.u, false, false, false, false, false, false, f.flags.mapped,
                        f.flags.avail1, f.flags.avail2)
  }

  /** The child's map `G` against the parent's map `F` at the time of the fork: the parent's pages one for one, page
      `sp` in a writable copy; and the screen, where the parent has no page in its place or has it as env_setup_vm
      left it. */
  ghost predicate ChildSees(F: map<nat, Word>, m0: seq<Frame>, G: map<nat, Word>, m: seq<Frame>, sp: nat) {
    && (forall v: nat | v in F && v != sp :: v in G && ChildEntry(F[v], m0, G[v], m))
    && (forall v: nat | v in G && v !in F :: v == VGA_USER / PGSIZE)
    && (sp in F ==>
          && sp in G && G[sp].addr != F[sp].addr && F[sp].addr < |m0| && G[sp].addr < |m|
          && m[G[sp].addr] == m0[F[sp].addr] && G[sp].flags == NO_FLAGS.(p := true, w := true, u := true))
    && (sp != VGA_USER / PGSIZE ==>
          var screen := Word(0xB8, NO_FLAGS.(p := true, w := true, u := true, mapped := true));
          VGA_USER / PGSIZE !in F || F[VGA_USER / PGSIZE] == screen ==>
            VGA_USER / PGSIZE in G && G[VGA_USER / PGSIZE] == screen)
  }

  lemma ForkedMeans(g0: Graph, m0: seq<Frame>, g: Graph, m: seq<Frame>, cur: nat, child: nat, sp: nat)
    requires cur != child && Forked(g0, m0, g, m, cur, child, sp)
    ensures ChildSees(Flat(g0, cur), m0, Flat(g, child), m, sp)
  {
    hide Flat;
  }

  /** fork_v0 in the parent; `sp` is the address of its local variable va. `ok` is false when it panics, or where a
      count would overflow; it is true when there is enough memory and room to count. */
  method ForkV0(k: Kernel, c: nat, sp: nat, ghost cur: nat) returns (pid: int, ok: bool, ghost child: nat)
    requires c < |k.cpus| && k.cpus[c].env == Some(cur) && cur < NENV && sp < UTOP && Serving(k, c)
    requires PGNUM(UTEMP) !in Flat(k.g, cur) && PGNUM(sp) in Flat(k.g, cur)
    requires ScreenHasRoom(k)
    modifies k`pages, k`pageFreeList, k`mem, k`free, k`tlbs, k`g, k`envs, k`envFreeList, k`envFree, k`allocs, k`mail
    ensures ok ==> Serving(k, c)
    ensures ok ==>
      && InSyscall(k, c) && IsChild(k, c, pid, child) && k.envs[child].status == Runnable && pid == k.envs[child].id > 0
      && Forked(old(k.g), old(k.mem), k.g, k.mem, cur, child, PGNUM(sp))
      && ChildSees(Flat(old(k.g), cur), old(k.mem), Flat(k.g, child), k.mem, PGNUM(sp))
      && |old(k.envs)| == NENV && k.envs[child].tf == Trapframe(0, old(k.envs)[cur].tf.rest)
      && forall e | 0 <= e < NENV && e != child :: k.envs[e] == old(k.envs)[e]
    ensures CanFork(old(k.C()), |old(k.envFree)|, Flat(old(k.g), cur)) ==> ok
  {
    hide Inv, EnvInv, Coherent, Flat, Progress, Forked, MappedBelow, Spent, PagesCost, TableCost, RunOk, MailOk, LogOk,
         ChildSees;
    InSyscallWhileServing(k, c);
    hide Serving, Enough;
    ghost var F := Flat(k.g, cur);
    ghost var can := CanFork(k.C(), |k.envFree|, F);
    pid, ok, child := MakeChild(k, c, cur);
    if ok && can {
      EnoughToCopy(old(k.C()), old(k.g), k.C(), k.g, F, |old(k.envFree)|, cur);
    }
    if ok {
      ok := FillChild(k, c, pid, sp, cur, child, old(k.g), old(k.mem));
    }
    if ok {
      ForkedMeans(old(k.g), old(k.mem), k.g, k.mem, cur, child, PGNUM(sp));
    }
  }

  /** The stack page, copied once more at the end, follows the rule of the other pages exactly if the parent's
      permission was P, U, W and nothing else; a PTE_MAPPED stack page, for one, is not shared. */
  lemma StackPageException(g0: Graph, m0: seq<Frame>, g: Graph, m: seq<Frame>, cur: nat, child: nat, sp: nat)
    requires Forked(g0, m0, g, m, cur, child, sp)
    ensures CopyOf(Flat(g0, cur), m0, g, m, child, sp) <==> SyscallBits(Flat(g0, cur)[sp].flags) == PWU
  {
    hide Flat;
  }

  /** After a fork, a page writable in both environments is one the child holds as PTE_MAPPED. */
  lemma OnlyMappedPagesStayShared(g0: Graph, m0: seq<Frame>, g: Graph, m: seq<Frame>, cur: nat, child: nat, sp: nat,
                                  v: nat, v': nat)
    requires cur != child && Forked(g0, m0, g, m, cur, child, sp)
    requires v in Flat(g, cur) && v' in Flat(g, child) && Flat(g, cur)[v].addr == Flat(g, child)[v'].addr
    requires Flat(g, cur)[v].flags.w && Flat(g, child)[v'].flags.w
    ensures Flat(g, child)[v'].flags.mapped
  {
    hide Flat;
    if v' in Flat(g0, cur) && v' != sp {
      assert CopyOf(Flat(g0, cur), m0, g, m, child, v');
    }
  }
}

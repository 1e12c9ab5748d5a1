/** The upper half of the address space: what the running kernel never changes, and every environment shares. */
module KernelView {
  import opened Layout
  import opened Graph
  import opened PageState
  import opened Tables
  import opened Steps
  import opened Tlb
  import opened Syscall

  /** kern_pgdir translates every page as before. */
  ghost predicate WalksKept(kern: nat, m: seq<Frame>, m': seq<Frame>) {
    kern < |m| == |m'| && forall v: Page :: Walk(m', kern, v) == Walk(m, kern, v)
  }

  lemma WalksSame(kern: nat, m: seq<Frame>)
    requires kern < |m|
    ensures WalksKept(kern, m, m)
  {
  }

  lemma WalksThen(kern: nat, m: seq<Frame>, m1: seq<Frame>, m2: seq<Frame>)
    requires WalksKept(kern, m, m1) && WalksKept(kern, m1, m2)
    ensures WalksKept(kern, m, m2)
  {
    hide Walk;
  }

  /** The words of kern_pgdir and of its tables are the same. */
  ghost predicate SameKernel(g: Graph, b: Boot, m: seq<Frame>, m': seq<Frame>) {
    && |m| == |m'| && b.kern < |m| && m'[b.kern] == m[b.kern]
    && forall i: nat | Kern(i) in g :: g[Kern(i)].addr < |m| && m'[g[Kern(i)].addr] == m[g[Kern(i)].addr]
  }

  lemma KernelStays(c: Counts, g: Graph, m: seq<Frame>, b: Boot, h: Held, m': seq<Frame>)
    requires Inv(c, g, m, b, h) && (SameKernel(g, b, m, m') || SameMapped(g, b, m, m'))
    ensures WalksKept(b.kern, m, m')
  {
    hide CountInv;
    forall v: Page ensures Walk(m', b.kern, v) == Walk(m, b.kern, v) {
      if v.i < NPTENTRIES && v.j < NPTENTRIES && m[b.kern][v.i].flags.p && !m[b.kern][v.i].flags.ps {
        assert RefersToTable(m[b.kern][v.i]);
        assert v.i == UVPT_PDX || Kern(v.i) in g;
      }
    }
  }

  /** A mapped page is none of the kernel's tables. */
  lemma StoreSparesKernel(c: Counts, g: Graph, m: seq<Frame>, b: Boot, h: Held, s: Slot, f: Frame)
    requires Inv(c, g, m, b, h) && s in g && s.Pte?
    ensures g[s].addr < |m| && SameKernel(g, b, m, m[g[s].addr := f])
  {
  }

  /** Above UTOP every environment sees what kern_pgdir maps; only at UVPT each sees its own tables. */
  lemma SeesKernel(c: Counts, g: Graph, m: seq<Frame>, b: Boot, h: Held, e: nat, v: Page)
    requires Inv(c, g, m, b, h) && Dir(e) in g && USER_PDES <= v.i < NPTENTRIES && v.j < NPTENTRIES
    ensures g[Dir(e)].addr < |m| && b.kern < |m|
    ensures v.i != UVPT_PDX ==> Walk(m, g[Dir(e)].addr, v) == Walk(m, b.kern, v)
    ensures v.i == UVPT_PDX ==>
      var w := m[g[Dir(e)].addr][v.j];
      Walk(m, g[Dir(e)].addr, v) ==
        if w.flags.p then Some(Translation(w.addr, false, w.flags.u, w.flags.pwt, w.flags.pcd)) else None
  {
    hide CountInv;
    assert DirectoryOk(g, m, b, e);
  }

  /** Above UTOP, but for the UVPT window, every environment's directory over memory `m` translates as kern_pgdir did
      over memory `m0`. */
  ghost predicate UpperHalf(g: Graph, kern: nat, m0: seq<Frame>, m: seq<Frame>) {
    kern < |m0| && forall e: nat, v: Page
      | Dir(e) in g && 955 <= v.i < NPTENTRIES && v.j < NPTENTRIES && v.i != UVPT_PDX ::
      g[Dir(e)].addr < |m| && Walk(m, g[Dir(e)].addr, v) == Walk(m0, kern, v)
  }

  lemma EveryoneSees(c: Counts, g: Graph, m: seq<Frame>, b: Boot, h: Held, m0: seq<Frame>)
    requires Inv(c, g, m, b, h) && WalksKept(b.kern, m0, m)
    ensures UpperHalf(g, b.kern, m0, m)
  {
    hide Inv, Walk;
    forall e: nat, v: Page | Dir(e) in g && 955 <= v.i < NPTENTRIES && v.j < NPTENTRIES && v.i != UVPT_PDX
      ensures g[Dir(e)].addr < |m| && Walk(m, g[Dir(e)].addr, v) == Walk(m0, b.kern, v)
    {
      SeesKernel(c, g, m, b, h, e, v);
    }
  }
}

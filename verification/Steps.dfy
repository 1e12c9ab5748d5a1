/** The whole page invariant, and the steps that keep it. */
module Steps {
  import opened Layout
  import opened Graph
  import opened PageState
  import opened Tables

  /** Counts, free list, graph and memory agree, up to what running code holds. */
  ghost predicate Inv(c: Counts, g: Graph, m: seq<Frame>, b: Boot, h: Held) {
    BootOk(b) && CountInv(c, g, b, h) && GraphOk(g, b) && Match(g, m, b)
  }

  lemma Sizes(c: Counts, g: Graph, m: seq<Frame>, b: Boot, h: Held)
    requires Inv(c, g, m, b, h)
    ensures |c.pages| == |m| == b.npages && BootOk(b)
    ensures c.head == if c.free == [] then None else Some(c.free[0])
    ensures forall p | p in c.free :: 0 < p < b.npages && c.pages[p].ref == 0
    ensures forall p | 0 <= p < b.npages && p !in c.free :: c.pages[p].link == None
    ensures forall s | s in g :: 0 < g[s].addr < b.npages && c.pages[g[s].addr].ref > 0 && g[s].addr !in c.free
  {
    forall s | s in g ensures c.pages[g[s].addr].ref > 0 {
      NoRefs(g, g[s].addr);
    }
    ChainInRange(c.pages, c.head, c.free);
  }

  lemma Extent(c: Counts, g: Graph, m: seq<Frame>, b: Boot, h: Held)
    requires Inv(c, g, m, b, h)
    ensures |c.pages| == |m| == b.npages && b.kern < |m| && 0 < VGA_PAGE < b.npages
  {
  }

  lemma SixteenBits(c: Counts, g: Graph, m: seq<Frame>, b: Boot, h: Held, p: nat)
    requires Inv(c, g, m, b, h) && p < b.npages
    ensures p < |c.pages| && c.pages[p].ref < REF_LIMIT
  {
  }

  /** page_alloc's page is referred to by nobody and has count 0. */
  lemma StepPop(c: Counts, g: Graph, m: seq<Frame>, b: Boot, h: Held)
    requires Inv(c, g, m, b, h) && c.free != []
    ensures var p := c.free[0];
      && 0 < p < b.npages && p !in b.pinned && p != b.kern && p !in h.taken && p !in h.ahead
      && |c.pages| == b.npages && c.pages[p].ref == 0
      && (forall s | s in g :: g[s].addr != p)
      && Popped(c).pages[p] == PageInfo(None, 0) && p !in Popped(c).free
      && Inv(Popped(c), g, m, b, h.(taken := h.taken + {p}))
  {
    PopKeeps(c, g, b, h);
  }

  /** Writing a page that holds data, or that nobody refers to. */
  lemma StepData(c: Counts, g: Graph, m: seq<Frame>, b: Boot, h: Held, p: nat, f: Frame)
    requires Inv(c, g, m, b, h) && p < b.npages && NotTable(g, b, p)
    ensures |m| == b.npages && Inv(c, g, m[p := f], b, h)
  {
    DataWriteKeeps(g, m, b, p, f);
  }

  lemma StepIncrement(c: Counts, g: Graph, m: seq<Frame>, b: Boot, h: Held, p: nat)
    requires Inv(c, g, m, b, h)
    requires 0 < p < b.npages && p !in c.free && p !in h.ahead
    requires p < |c.pages| && c.pages[p].ref < REF_LIMIT - 1
    ensures Inv(Incremented(c, p), g, m, b, Held(h.taken - {p}, h.ahead + {p}))
  {
    IncrementKeeps(c, g, b, h, p);
  }

  lemma StepGiveBack(c: Counts, g: Graph, m: seq<Frame>, b: Boot, h: Held, p: nat)
    requires Inv(c, g, m, b, h) && p in h.taken
    ensures p < |c.pages| && c.pages[p] == PageInfo(None, 0)
    ensures Inv(Pushed(c, p), g, m, b, h.(taken := h.taken - {p}))
  {
    GiveBackKeeps(c, g, b, h, p);
  }

  /** Taking the only free page and giving it back changes nothing. */
  lemma PopPush(c: Counts, g: Graph, m: seq<Frame>, b: Boot, h: Held)
    requires Inv(c, g, m, b, h) && |c.free| == 1
    ensures c.free[0] < |c.pages| && Pushed(Popped(c), c.free[0]) == c
  {
    var p := c.free[0];
    assert Chain(c.pages, c.pages[p].link, c.free[1..]);
    assert c.pages[p := c.pages[p].(link := None)] == c.pages;
    assert [p] + c.free[1..] == c.free;
  }

  /** Hanging a zeroed, counted page into the empty directory entry of slot `s`. */
  lemma StepHang(c: Counts, g: Graph, m: seq<Frame>, b: Boot, h: Held, s: Slot, d: nat, w: Word)
    requires w.addr !in h.ahead && w.addr !in h.taken
    requires Inv(c, g, m, b, Held(h.taken, h.ahead + {w.addr}))
    requires s !in g && w.flags == PWU && 0 < w.addr < b.npages && w.addr !in b.pinned && w.addr != b.kern
    requires forall s' | s' in g :: g[s'].addr != w.addr
    requires w.addr < |m| && m[w.addr] == ZeroFrame()
    requires s.Pde? || s.Kern?
    requires s.Pde? ==> Dir(s.e) in g && g[Dir(s.e)].addr == d && s.i < USER_PDES
    requires s.Kern? ==> d == b.kern && USER_PDES <= s.i < NPTENTRIES && s.i != UVPT_PDX
    requires s.Kern? ==> forall e: nat :: Dir(e) !in g
    ensures d < |m| && Inv(c, g[s := w], m[d := m[d][s.i := w]], b, h)
  {
    LinkKeeps(c, g, b, Held(h.taken, h.ahead + {w.addr}), s, w);
    assert h.ahead + {w.addr} - {w.addr} == h.ahead;
    if s.Pde? {
      PdeWriteKeeps(g, m, b, s.e, s.i, w);
    } else {
      KernWriteKeeps(g, m, b, s.i, w);
    }
  }

  /** Storing the word for a page counted ahead, where no word was. */
  lemma StepStore(c: Counts, g: Graph, m: seq<Frame>, b: Boot, h: Held, e: nat, i: nat, j: nat, w: Word)
    requires w.addr !in h.ahead && Inv(c, g, m, b, Held(h.taken - {w.addr}, h.ahead + {w.addr}))
    requires Pde(e, i) in g && j < NPTENTRIES && Pte(e, i, j) !in g
    requires w.flags.p && 0 < w.addr < b.npages && NotTable(g, b, w.addr)
    ensures var t := g[Pde(e, i)].addr; var g' := g[Pte(e, i, j) := w];
      && t < |m|
      && Inv(c, g', m[t := m[t][j := w]], b, h.(taken := h.taken - {w.addr}))
  {
    var h1 := Held(h.taken - {w.addr}, h.ahead + {w.addr});
    LinkKeeps(c, g, b, h1, Pte(e, i, j), w);
    assert h1.(ahead := h1.ahead - {w.addr}) == h.(taken := h.taken - {w.addr});
    PteWriteKeeps(g, m, b, e, i, j, w);
  }

  /** Dropping a page entry: the count goes down, at zero the page is freed, and the word is cleared. */
  lemma StepRemove(c: Counts, g: Graph, m: seq<Frame>, b: Boot, h: Held, s: Slot)
    requires Inv(c, g, m, b, h) && s in g && s.Pte?
    ensures s.j < NPTENTRIES && Pde(s.e, s.i) in g
    ensures var q := g[s].addr; var t := g[Pde(s.e, s.i)].addr;
      && q < |c.pages| && c.pages[q].ref > 0 && c.pages[q].link == None && t < |m|
      && Inv(Decremented(c, q), g - {s}, m[t := m[t][s.j := ZERO]], b, h)
  {
    hide CountInv, GraphOk, Match;
    Sizes(c, g, m, b, h);
    UnlinkKeeps(c, g, b, h, s);
    PteClearKeeps(g, m, b, s.e, s.i, s.j);
  }

  /** The same for a page whose count has just gone from 65535 to 0: it comes back to 65535, which counts it ahead. */
  lemma StepRemoveOver(c: Counts, g: Graph, m: seq<Frame>, b: Boot, h: Held, s: Slot)
    requires Inv(c, g, m, b, h) && s in g && s.Pte? && g[s].addr !in h.ahead
    requires g[s].addr < |c.pages| && c.pages[g[s].addr].ref == REF_LIMIT - 1
    ensures s.j < NPTENTRIES && Pde(s.e, s.i) in g
    ensures var q := g[s].addr; var t := g[Pde(s.e, s.i)].addr;
      && q < |c.pages| && c.pages[q].link == None && t < |m|
      && Decremented(Incremented(c, q), q) == c
      && Inv(c, g - {s}, m[t := m[t][s.j := ZERO]], b, Held(h.taken, h.ahead + {q}))
  {
    hide CountInv, GraphOk, Match, Decremented, Incremented;
    Sizes(c, g, m, b, h);
    UnlinkAhead(c, g, b, h, s);
    OverAndBack(c, g[s].addr);
    PteClearKeeps(g, m, b, s.e, s.i, s.j);
  }

  /** Dropping an empty table. */
  lemma StepDropTable(c: Counts, g: Graph, m: seq<Frame>, b: Boot, h: Held, s: Slot)
    requires Inv(c, g, m, b, h) && s in g && s.Pde? && g[s].addr !in h.ahead
    requires forall j: nat :: Pte(s.e, s.i, j) !in g
    ensures s.i < USER_PDES && Dir(s.e) in g
    ensures var q := g[s].addr; var d := g[Dir(s.e)].addr;
      && q < |c.pages| && c.pages[q].ref == 1 && c.pages[q].link == None && d < |m|
      && Inv(Decremented(c, q), g - {s}, m[d := m[d][s.i := ZERO]], b, h)
  {
    hide CountInv, GraphOk, Match;
    Sizes(c, g, m, b, h);
    SoleReference(c, g, b, h, s);
    UnlinkKeeps(c, g, b, h, s);
    PdeClearKeeps(g, m, b, s.e, s.i);
  }

  /** Taking a counted page as the directory of environment `e`. */
  lemma StepAddDir(c: Counts, g: Graph, m: seq<Frame>, b: Boot, h: Held, e: nat, d: nat)
    requires d !in h.ahead && d !in h.taken && Inv(c, g, m, b, Held(h.taken, h.ahead + {d}))
    requires Dir(e) !in g && e < NENV
    requires 0 < d < |m| && d !in b.pinned && d < b.npages
    requires forall s | s in g :: g[s].addr != d
    requires b.kern < |m|
    requires IsFreshDirectory(m[d], m[b.kern], d)
    ensures Inv(c, g[Dir(e) := Word(d, NO_FLAGS)], m, b, h)
  {
    LinkKeeps(c, g, b, Held(h.taken, h.ahead + {d}), Dir(e), Word(d, NO_FLAGS));
    assert h.ahead + {d} - {d} == h.ahead;
    DirAddKeeps(g, m, b, e, d);
  }

  /** Entries lie inside their table, tables inside their directory. */
  lemma Shape(c: Counts, g: Graph, m: seq<Frame>, b: Boot, h: Held)
    requires Inv(c, g, m, b, h)
    ensures forall e: nat, i: nat | Pde(e, i) in g :: i < USER_PDES && Dir(e) in g
    ensures forall e: nat, i: nat, j: nat | Pte(e, i, j) in g :: j < NPTENTRIES && Pde(e, i) in g && i < USER_PDES
  {
    forall e: nat, i: nat | Pde(e, i) in g ensures i < USER_PDES {
      assert DirectoryOk(g, m, b, e);
    }
    forall e: nat, i: nat, j: nat | Pte(e, i, j) in g ensures j < NPTENTRIES && i < USER_PDES {
      assert TableMatch(g, m[g[Pde(e, i)].addr], e, i);
    }
  }

  /** An environment without a directory has no entries. */
  lemma NoDirNoEntries(c: Counts, g: Graph, m: seq<Frame>, b: Boot, h: Held, e: nat)
    requires Inv(c, g, m, b, h) && Dir(e) !in g
    ensures forall i: nat :: Pde(e, i) !in g
    ensures forall i: nat, j: nat :: Pte(e, i, j) !in g
  {
  }

  /** Dropping an environment's directory once its user half is empty. */
  lemma StepDropDir(c: Counts, g: Graph, m: seq<Frame>, b: Boot, h: Held, e: nat)
    requires Inv(c, g, m, b, h) && Dir(e) in g && g[Dir(e)].addr !in h.ahead
    requires forall i: nat :: Pde(e, i) !in g
    ensures var q := g[Dir(e)].addr;
      && q < |c.pages| && c.pages[q].ref == 1 && c.pages[q].link == None
      && Inv(Decremented(c, q), g - {Dir(e)}, m, b, h)
  {
    hide CountInv, GraphOk, Match;
    Sizes(c, g, m, b, h);
    SoleReference(c, g, b, h, Dir(e));
    UnlinkKeeps(c, g, b, h, Dir(e));
    DirDropKeeps(g, m, b, e);
  }

  /** A table or directory has count 1: its one owner (unless running code has counted it ahead). */
  lemma SoleReference(c: Counts, g: Graph, b: Boot, h: Held, s: Slot)
    requires CountInv(c, g, b, h) && GraphOk(g, b)
    requires s in g && !s.Pte? && g[s].addr !in h.ahead
    ensures c.pages[g[s].addr].ref == 1
  {
    assert Refs(g, g[s].addr) == {s};
  }
}

/** The translation lookaside buffer: which cached translations a write to memory makes stale. */
module Tlb {
  import opened Layout
  import opened Graph
  import opened PageState
  import opened Tables

  /** A virtual page, by directory and table index. */
  datatype Page = Page(i: nat, j: nat)

  /** What the hardware caches: the physical page, the access rights of both levels together, and whether accesses to
      the page are written through and uncached. */
  datatype Translation = Translation(addr: nat, write: bool, user: bool, pwt: bool := false, pcd: bool := false)

  type Tlb = map<Page, Translation>

  /** The hardware's walk from directory `d`, through a table or to a 4 MB page (section 4.3 of volume 3A of the Intel
      SDM). Non-present entries are not cached. */
  function Walk(m: seq<Frame>, d: nat, v: Page): Option<Translation>
    requires d < |m|
  {
    if v.i >= NPTENTRIES || v.j >= NPTENTRIES then None
    else
      var pde := m[d][v.i];
      if !pde.flags.p then None
      else if pde.flags.ps then 
        Some(Translation(LargePage(pde.addr) + v.j, pde.flags.w, pde.flags.u, pde.flags.pwt, pde.flags.pcd))
      else if pde.addr >= |m| then None
      else
        var pte := m[pde.addr][v.j];
        if pte.flags.p then
          Some(Translation(pte.addr, pde.flags.w && pte.flags.w, pde.flags.u && pte.flags.u, pte.flags.pwt,
                           pte.flags.pcd))
        else None
  }

  /** The first page of the 4 MB page that a directory entry with PTE_PS names. */
  function LargePage(addr: nat): nat { addr / NPTENTRIES * NPTENTRIES }

  /** Every cached translation is what a walk from cr3 gives. */
  ghost predicate Agrees(tlb: Tlb, m: seq<Frame>, cr3: nat) {
    cr3 < |m| && forall v | v in tlb :: Walk(m, cr3, v) == Some(tlb[v])
  }

  /** What the hardware may do at any moment: cache present translations, and forget any. */
  ghost predicate Filled(tlb: Tlb, tlb': Tlb, m: seq<Frame>, cr3: nat) {
    cr3 < |m| && forall v | v in tlb' :: (v in tlb && tlb'[v] == tlb[v]) || Walk(m, cr3, v) == Some(tlb'[v])
  }

  lemma FillKeeps(tlb: Tlb, tlb': Tlb, m: seq<Frame>, cr3: nat)
    requires Agrees(tlb, m, cr3) && Filled(tlb, tlb', m, cr3)
    ensures Agrees(tlb', m, cr3)
  {
  }

  /** A directory that can be in cr3. */
  ghost predicate Root(g: Graph, b: Boot, r: nat) {
    r == b.kern || exists e: nat :: Dir(e) in g && g[Dir(e)].addr == r
  }

  /** Every translation there was is still there. */
  ghost predicate KeepsPresent(m: seq<Frame>, m': seq<Frame>, r: nat) {
    r < |m| == |m'| && forall v | Walk(m, r, v).Some? :: Walk(m', r, v) == Walk(m, r, v)
  }

  /** Every translation but that of page `v0`. */
  ghost predicate KeepsOthers(m: seq<Frame>, m': seq<Frame>, r: nat, v0: Page) {
    r < |m| == |m'| && forall v | v != v0 :: Walk(m', r, v) == Walk(m, r, v)
  }

  lemma KeepsAgreement(tlb: Tlb, m: seq<Frame>, m': seq<Frame>, r: nat)
    requires Agrees(tlb, m, r) && KeepsPresent(m, m', r)
    ensures Agrees(tlb, m', r)
  {
  }

  /** The table behind a present entry of a directory belongs to the slot of that entry, or is the directory itself. */
  ghost predicate TableOf(g: Graph, r: nat, i: nat, t: nat) {
    if i == UVPT_PDX then t == r
    else if i < USER_PDES then
      exists e: nat :: Dir(e) in g && g[Dir(e)].addr == r && Pde(e, i) in g && g[Pde(e, i)].addr == t
    else Kern(i) in g && g[Kern(i)].addr == t
  }

  lemma TableOwner(g: Graph, m: seq<Frame>, b: Boot, r: nat, i: nat)
    requires BootOk(b) && GraphOk(g, b) && Match(g, m, b) && Root(g, b, r) && i < NPTENTRIES
    ensures r < |m| && (RefersToTable(m[r][i]) ==> TableOf(g, r, i, m[r][i].addr))
  {
    if r != b.kern {
      var e: nat :| Dir(e) in g && g[Dir(e)].addr == r;
      assert DirectoryOk(g, m, b, e);
    }
  }

  /** A walk depends on one word of the directory and one word of the table it refers to. */
  lemma WalkSame(m: seq<Frame>, m': seq<Frame>, r: nat, v: Page)
    requires r < |m| == |m'|
    requires v.i < NPTENTRIES && v.j < NPTENTRIES ==>
      && m'[r][v.i] == m[r][v.i]
      && (RefersToTable(m[r][v.i]) && m[r][v.i].addr < |m| ==> m'[m[r][v.i].addr][v.j] == m[m[r][v.i].addr][v.j])
    ensures Walk(m', r, v) == Walk(m, r, v)
  {
  }

  lemma WalkInRange(m: seq<Frame>, r: nat, v: Page)
    requires r < |m| && Walk(m, r, v).Some?
    ensures v.i < NPTENTRIES && v.j < NPTENTRIES && m[r][v.i].flags.p
    ensures RefersToTable(m[r][v.i]) ==> m[r][v.i].addr < |m| && m[m[r][v.i].addr][v.j].flags.p
  {
  }

  /** A write to one word of a user table is seen at one page of one directory. */
  lemma TableWriteSeen(g: Graph, m: seq<Frame>, b: Boot, e: nat, i: nat, j: nat, w: Word, r: nat)
    requires BootOk(b) && GraphOk(g, b) && Match(g, m, b) && Root(g, b, r)
    requires Pde(e, i) in g && j < NPTENTRIES
    ensures g[Pde(e, i)].addr < |m| && Dir(e) in g
    ensures var m' := m[g[Pde(e, i)].addr := m[g[Pde(e, i)].addr][j := w]];
      && KeepsOthers(m, m', r, Page(i, j))
      && (r != g[Dir(e)].addr ==> KeepsPresent(m, m', r))
      && (!m[g[Pde(e, i)].addr][j].flags.p ==> KeepsPresent(m, m', r))
  {
    hide Match;
    TablesExist(g, m, b, e, i);
    var t := g[Pde(e, i)].addr;
    var m' := m[t := m[t][j := w]];
    TableOwner(g, m, b, r, 0);
    forall v ensures Walk(m', r, v) == Walk(m, r, v)
             || (v == Page(i, j) && r == g[Dir(e)].addr && (!m[t][j].flags.p ==> Walk(m, r, v) == None)) {
      if v.i < NPTENTRIES && v.j < NPTENTRIES {
        TableOwner(g, m, b, r, v.i);
        if v != Page(i, j) || r != g[Dir(e)].addr {
          WalkSame(m, m', r, v);
        }
      } else {
        WalkSame(m, m', r, v);
      }
    }
  }

  lemma DirectoriesExist(g: Graph, m: seq<Frame>, b: Boot, e: nat)
    requires BootOk(b) && GraphOk(g, b) && Match(g, m, b) && Dir(e) in g
    ensures g[Dir(e)].addr < |m| == b.npages
  {
  }

  lemma TablesExist(g: Graph, m: seq<Frame>, b: Boot, e: nat, i: nat)
    requires BootOk(b) && GraphOk(g, b) && Match(g, m, b) && Pde(e, i) in g
    ensures Dir(e) in g && g[Pde(e, i)].addr < |m| == b.npages && g[Dir(e)].addr < |m| && i < USER_PDES
    ensures m[g[Dir(e)].addr][i] == g[Pde(e, i)] && m[g[Dir(e)].addr][i].flags.p
  {
    assert DirectoryOk(g, m, b, e);
  }

  /** A write to a user-half entry of a directory is seen in that directory only: where the table maps pages, and at
      the table's own page in the UVPT window. */
  lemma DirectoryWriteSeen(g: Graph, m: seq<Frame>, b: Boot, e: nat, i: nat, w: Word, r: nat)
    requires BootOk(b) && GraphOk(g, b) && Match(g, m, b) && Root(g, b, r)
    requires Dir(e) in g && i < USER_PDES
    ensures g[Dir(e)].addr < |m|
    ensures var m' := m[g[Dir(e)].addr := m[g[Dir(e)].addr][i := w]];
      && (r != g[Dir(e)].addr ==> KeepsPresent(m, m', r))
      && (!m[g[Dir(e)].addr][i].flags.p ==> KeepsPresent(m, m', r))
  {
    hide Match, Walk;
    assert g[Dir(e)].addr < |m| by { DirectoriesExist(g, m, b, e); }
    var d := g[Dir(e)].addr;
    var m' := m[d := m[d][i := w]];
    TableOwner(g, m, b, r, 0);
    forall v | Walk(m, r, v).Some? && (r != d || !m[d][i].flags.p) ensures Walk(m', r, v) == Walk(m, r, v) {
      WalkInRange(m, r, v);
      TableOwner(g, m, b, r, v.i);
      WalkSame(m, m', r, v);
    }
  }

  /** Hanging a table into an empty entry of kern_pgdir while no environment copies it. */
  lemma KernelWriteSeen(g: Graph, m: seq<Frame>, b: Boot, i: nat, w: Word, r: nat)
    requires BootOk(b) && GraphOk(g, b) && Match(g, m, b) && Root(g, b, r)
    requires i < NPTENTRIES && i != UVPT_PDX && b.kern < |m| && !m[b.kern][i].flags.p && forall e: nat :: Dir(e) !in g
    ensures KeepsPresent(m, m[b.kern := m[b.kern][i := w]], r)
  {
    var m' := m[b.kern := m[b.kern][i := w]];
    hide Match, Walk;
    TableOwner(g, m, b, r, 0);
    forall v | Walk(m, r, v).Some? ensures Walk(m', r, v) == Walk(m, r, v) {
      WalkInRange(m, r, v);
      TableOwner(g, m, b, r, v.i);
      WalkSame(m, m', r, v);
    }
  }

  /** A write to a page that is no table is not seen by any walk. */
  lemma DataWriteUnseen(g: Graph, m: seq<Frame>, b: Boot, p: nat, f: Frame, r: nat)
    requires BootOk(b) && GraphOk(g, b) && Match(g, m, b) && Root(g, b, r)
    requires p < |m| && NotTable(g, b, p)
    ensures KeepsPresent(m, m[p := f], r)
  {
    hide Match, Walk;
    TableOwner(g, m, b, r, 0);
    forall v | Walk(m, r, v).Some? ensures Walk(m[p := f], r, v) == Walk(m, r, v) {
      WalkInRange(m, r, v);
      TableOwner(g, m, b, r, v.i);
      WalkSame(m, m[p := f], r, v);
    }
  }

  /** After the write to page `v` and with that page flushed, the buffer agrees again. */
  lemma FlushRepairs(tlb: Tlb, tlb': Tlb, m: seq<Frame>, m': seq<Frame>, r: nat, v: Page)
    requires Agrees(tlb, m, r) && KeepsOthers(m, m', r, v) && Filled(tlb, tlb', m', r)
    ensures Agrees(tlb' - {v}, m', r)
  {
  }

  /** Where a translation changes and is not flushed, the buffer can go stale: so it goes on other CPUs, which nothing
      tells to flush. */
  lemma UnflushedGoesStale(m: seq<Frame>, m': seq<Frame>, r: nat, v: Page)
    requires r < |m| == |m'| && Walk(m, r, v).Some? && Walk(m', r, v) != Walk(m, r, v)
    ensures exists tlb :: Agrees(tlb, m, r) && !Agrees(tlb, m', r)
  {
    hide Walk;
    var tlb := map[v := Walk(m, r, v).value];
    assert Agrees(tlb, m, r) && !Agrees(tlb, m', r) by {
      assert v in tlb;
    }
  }
}

/** How directories and tables stored in physical pages spell out the reference graph. */
module Tables {
  import opened Layout
  import opened Graph
  import opened PageState

  /** Targets are real pages; pages used as directory or table are unpinned and referred to by one slot only; entries
      for tables leave all access rights to the tables. */
  ghost predicate GraphOk(g: Graph, b: Boot) {
    && (forall s | s in g :: 0 < g[s].addr < b.npages && g[s].addr != b.kern)
    && (forall s | s in g && !s.Pte? :: g[s].addr !in b.pinned)
    && (forall s, s' | s in g && s' in g && !s.Pte? && g[s].addr == g[s'].addr :: s == s')
    && (forall e: nat | Dir(e) in g :: e < NENV)
    && (forall s | s in g && (s.Pde? || s.Kern?) :: g[s].flags == PWU)
  }

  /** A directory entry that refers to a table, not to a 4 MB page. */
  predicate RefersToTable(w: Word) { w.flags.p && !w.flags.ps }

  /** The words of a directory's kernel half: a copy of kern_pgdir's, except that UVPT maps the directory itself. */
  ghost predicate KernelHalf(dir: Frame, kernDir: Frame, d: nat) {
    forall i | USER_PDES <= i < NPTENTRIES ::
      dir[i] == if i == UVPT_PDX then Word(d, PU) else kernDir[i]
  }

  /** Every word of a directory's user half, and every other word but those of 4 MB pages, names a page that exists, so
      KADDR(PTE_ADDR(pde)) does not panic. */
  ghost predicate AddressesExist(dir: Frame, npages: nat) {
    forall i | 0 <= i < NPTENTRIES && (i < USER_PDES || !dir[i].flags.ps) :: dir[i].addr < npages
  }

  /** The user half of a directory holds exactly the table entries the graph gives environment `e`. */
  ghost predicate DirectoryMatch(g: Graph, dir: Frame, e: nat) {
    forall i: nat ::
      && (Pde(e, i) in g <==> i < USER_PDES && dir[i].flags.p)
      && (Pde(e, i) in g ==> g[Pde(e, i)] == dir[i])
  }

  /** A table holds exactly the page entries the graph gives entry `i` of environment `e`; its other words are 0. */
  ghost predicate TableMatch(g: Graph, table: Frame, e: nat, i: nat) {
    forall j: nat ::
      && (Pte(e, i, j) in g <==> j < NPTENTRIES && table[j].flags.p)
      && (Pte(e, i, j) in g ==> g[Pte(e, i, j)] == table[j])
      && (j < NPTENTRIES && !table[j].flags.p ==> table[j] == ZERO)
  }

  /** kern_pgdir: an empty user half, and a kernel half that holds exactly the kernel's tables. */
  ghost predicate KernelMatch(g: Graph, dir: Frame) {
    && (forall i | 0 <= i < USER_PDES :: !dir[i].flags.p)
    && forall i: nat ::
      && (Kern(i) in g <==> USER_PDES <= i < NPTENTRIES && i != UVPT_PDX && RefersToTable(dir[i]))
      && (Kern(i) in g ==> g[Kern(i)] == dir[i])
  }

  ghost predicate DirectoryOk(g: Graph, m: seq<Frame>, b: Boot, e: nat)
    requires Dir(e) in g && g[Dir(e)].addr < |m| && b.kern < |m|
  {
    var d := g[Dir(e)].addr;
    DirectoryMatch(g, m[d], e) && KernelHalf(m[d], m[b.kern], d) && AddressesExist(m[d], b.npages)
  }

  /** The graph holds exactly the present entries found by walking the memory from every env_pgdir and kern_pgdir. */
  ghost predicate Match(g: Graph, m: seq<Frame>, b: Boot)
    requires BootOk(b) && GraphOk(g, b)
  {
    && |m| == b.npages
    && (forall e: nat, i: nat | Pde(e, i) in g :: Dir(e) in g)
    && (forall e: nat, i: nat, j: nat | Pte(e, i, j) in g :: Pde(e, i) in g)
    && (forall e: nat | Dir(e) in g :: DirectoryOk(g, m, b, e))
    && (forall e: nat, i: nat | Pde(e, i) in g :: TableMatch(g, m[g[Pde(e, i)].addr], e, i))
    && KernelMatch(g, m[b.kern]) && AddressesExist(m[b.kern], b.npages) && m[b.kern][UVPT_PDX] == Word(b.kern, PU)
  }

  /** A page that no directory entry or env_pgdir refers to: it holds data or is free. */
  ghost predicate NotTable(g: Graph, b: Boot, p: nat) {
    p != b.kern && forall s | s in g && !s.Pte? :: g[s].addr != p
  }

  lemma GraphOkAddPte(g: Graph, b: Boot, s: Slot, w: Word)
    requires GraphOk(g, b) && s.Pte? && s !in g
    requires 0 < w.addr < b.npages && NotTable(g, b, w.addr)
    ensures GraphOk(g[s := w], b)
  {
  }

  lemma GraphOkRemove(g: Graph, b: Boot, s: Slot)
    requires GraphOk(g, b)
    ensures GraphOk(g - {s}, b)
  {
  }

  lemma TargetsExist(g: Graph, b: Boot)
    requires GraphOk(g, b)
    ensures forall s | s in g :: 0 < g[s].addr < b.npages && g[s].addr != b.kern
  {
  }

  /** A table or directory page has one owner, so a write to it leaves every other table and directory alone. */
  lemma OtherTablesUntouched(g: Graph, b: Boot, s: Slot)
    requires GraphOk(g, b) && s in g && !s.Pte?
    ensures forall s' | s' in g && s' != s :: g[s'].addr != g[s].addr
  {
  }

  lemma TableSame(g: Graph, g': Graph, table: Frame, e: nat, i: nat)
    requires TableMatch(g, table, e, i)
    requires forall j: nat :: Pte(e, i, j) in g <==> Pte(e, i, j) in g'
    requires forall j: nat | Pte(e, i, j) in g :: g'[Pte(e, i, j)] == g[Pte(e, i, j)]
    ensures TableMatch(g', table, e, i)
  {
  }

  lemma DirectorySame(g: Graph, g': Graph, m: seq<Frame>, m': seq<Frame>, b: Boot, e: nat)
    requires Dir(e) in g && Dir(e) in g' && g'[Dir(e)] == g[Dir(e)] && g[Dir(e)].addr < |m| == |m'| && b.kern < |m|
    requires DirectoryOk(g, m, b, e)
    requires m'[g[Dir(e)].addr] == m[g[Dir(e)].addr] && m'[b.kern] == m[b.kern]
    requires forall i: nat :: Pde(e, i) in g <==> Pde(e, i) in g'
    requires forall i: nat | Pde(e, i) in g :: g'[Pde(e, i)] == g[Pde(e, i)]
    ensures DirectoryOk(g', m', b, e)
  {
  }

  lemma KernelSame(g: Graph, g': Graph, dir: Frame)
    requires KernelMatch(g, dir)
    requires forall i: nat :: Kern(i) in g <==> Kern(i) in g'
    requires forall i: nat | Kern(i) in g :: g'[Kern(i)] == g[Kern(i)]
    ensures KernelMatch(g', dir)
  {
  }

  lemma TableSet(g: Graph, table: Frame, e: nat, i: nat, j: nat, w: Word)
    requires TableMatch(g, table, e, i) && j < NPTENTRIES && w.flags.p
    ensures TableMatch(g[Pte(e, i, j) := w], table[j := w], e, i)
  {
  }

  lemma TableClear(g: Graph, table: Frame, e: nat, i: nat, j: nat)
    requires TableMatch(g, table, e, i) && j < NPTENTRIES
    ensures TableMatch(g - {Pte(e, i, j)}, table[j := ZERO], e, i)
  {
  }

  lemma DirectoryClear(g: Graph, m: seq<Frame>, b: Boot, e: nat, i: nat)
    requires BootOk(b) && Dir(e) in g && g[Dir(e)].addr < |m| && b.kern < |m| && g[Dir(e)].addr != b.kern
    requires DirectoryOk(g, m, b, e) && i < USER_PDES
    ensures var d := g[Dir(e)].addr; DirectoryOk(g - {Pde(e, i)}, m[d := m[d][i := ZERO]], b, e)
  {
  }

  /** Writing a page that is no table changes no reference. */
  lemma DataWriteKeeps(g: Graph, m: seq<Frame>, b: Boot, p: nat, f: Frame)
    requires BootOk(b) && GraphOk(g, b) && Match(g, m, b)
    requires p < b.npages && NotTable(g, b, p)
    ensures Match(g, m[p := f], b)
  {
  }

  /** Storing a present word in a table entry that was not present. */
  lemma PteWriteKeeps(g: Graph, m: seq<Frame>, b: Boot, e: nat, i: nat, j: nat, w: Word)
    requires BootOk(b) && GraphOk(g, b) && Match(g, m, b)
    requires Pde(e, i) in g && j < NPTENTRIES && Pte(e, i, j) !in g
    requires w.flags.p && 0 < w.addr < b.npages && NotTable(g, b, w.addr)
    ensures var t := g[Pde(e, i)].addr;
      && t < b.npages
      && GraphOk(g[Pte(e, i, j) := w], b)
      && Match(g[Pte(e, i, j) := w], m[t := m[t][j := w]], b)
  {
    GraphOkAddPte(g, b, Pte(e, i, j), w);
    PteWriteMatch(g, m, b, e, i, j, w);
  }

  lemma PteWriteMatch(g: Graph, m: seq<Frame>, b: Boot, e: nat, i: nat, j: nat, w: Word)
    requires BootOk(b) && GraphOk(g, b) && Match(g, m, b)
    requires Pde(e, i) in g && j < NPTENTRIES && w.flags.p
    requires GraphOk(g[Pte(e, i, j) := w], b)
    ensures g[Pde(e, i)].addr < b.npages
    ensures var t := g[Pde(e, i)].addr; Match(g[Pte(e, i, j) := w], m[t := m[t][j := w]], b)
  {
    hide DirectoryOk, TableMatch, KernelMatch, AddressesExist, GraphOk;
    TargetsExist(g, b);
    var t := g[Pde(e, i)].addr;
    OtherTablesUntouched(g, b, Pde(e, i));
    var g', m' := g[Pte(e, i, j) := w], m[t := m[t][j := w]];
    TableSet(g, m[t], e, i, j, w);
    forall e': nat | Dir(e') in g' ensures DirectoryOk(g', m', b, e') {
      DirectorySame(g, g', m, m', b, e');
    }
    forall e': nat, i': nat | Pde(e', i') in g' ensures TableMatch(g', m'[g'[Pde(e', i')].addr], e', i') {
      if Pde(e', i') != Pde(e, i) {
        TableSame(g, g', m[g[Pde(e', i')].addr], e', i');
      }
    }
    KernelSame(g, g', m[b.kern]);
  }

  /** Clearing a present table entry. */
  lemma PteClearKeeps(g: Graph, m: seq<Frame>, b: Boot, e: nat, i: nat, j: nat)
    requires BootOk(b) && GraphOk(g, b) && Match(g, m, b)
    requires Pte(e, i, j) in g
    ensures j < NPTENTRIES && Pde(e, i) in g
    ensures var t := g[Pde(e, i)].addr;
      && t < b.npages
      && GraphOk(g - {Pte(e, i, j)}, b)
      && Match(g - {Pte(e, i, j)}, m[t := m[t][j := ZERO]], b)
  {
    assert TableMatch(g, m[g[Pde(e, i)].addr], e, i);
    GraphOkRemove(g, b, Pte(e, i, j));
    PteClearMatch(g, m, b, e, i, j);
  }

  lemma PteClearMatch(g: Graph, m: seq<Frame>, b: Boot, e: nat, i: nat, j: nat)
    requires BootOk(b) && GraphOk(g, b) && Match(g, m, b) && GraphOk(g - {Pte(e, i, j)}, b)
    requires Pde(e, i) in g && j < NPTENTRIES
    ensures g[Pde(e, i)].addr < b.npages
    ensures var t := g[Pde(e, i)].addr; Match(g - {Pte(e, i, j)}, m[t := m[t][j := ZERO]], b)
  {
    hide DirectoryOk, TableMatch, KernelMatch, AddressesExist, GraphOk;
    TargetsExist(g, b);
    var t := g[Pde(e, i)].addr;
    OtherTablesUntouched(g, b, Pde(e, i));
    var g', m' := g - {Pte(e, i, j)}, m[t := m[t][j := ZERO]];
    TableClear(g, m[t], e, i, j);
    forall e': nat | Dir(e') in g' ensures DirectoryOk(g', m', b, e') {
      DirectorySame(g, g', m, m', b, e');
    }
    forall e': nat, i': nat | Pde(e', i') in g' ensures TableMatch(g', m'[g'[Pde(e', i')].addr], e', i') {
      if Pde(e', i') != Pde(e, i) {
        TableSame(g, g', m[g[Pde(e', i')].addr], e', i');
      }
    }
    KernelSame(g, g', m[b.kern]);
  }

  /** Hanging a zeroed page as a new table into an environment's directory. */
  lemma PdeWriteKeeps(g: Graph, m: seq<Frame>, b: Boot, e: nat, i: nat, w: Word)
    requires BootOk(b) && GraphOk(g, b) && Match(g, m, b)
    requires Dir(e) in g && i < USER_PDES && Pde(e, i) !in g
    requires w.flags == PWU && 0 < w.addr < b.npages && w.addr !in b.pinned
    requires forall s | s in g :: g[s].addr != w.addr
    requires m[w.addr] == ZeroFrame()
    ensures var d := g[Dir(e)].addr;
      && d < b.npages
      && GraphOk(g[Pde(e, i) := w], b)
      && Match(g[Pde(e, i) := w], m[d := m[d][i := w]], b)
  {
    GraphOkAddTable(g, b, Pde(e, i), w);
    PdeWriteMatch(g, m, b, e, i, w);
  }

  lemma GraphOkAddTable(g: Graph, b: Boot, s: Slot, w: Word)
    requires GraphOk(g, b) && s !in g && !s.Dir?
    requires 0 < w.addr < b.npages && w.addr !in b.pinned && w.addr != b.kern && w.flags == PWU
    requires forall s' | s' in g :: g[s'].addr != w.addr
    ensures GraphOk(g[s := w], b)
  {
  }

  lemma PdeWriteMatch(g: Graph, m: seq<Frame>, b: Boot, e: nat, i: nat, w: Word)
    requires BootOk(b) && GraphOk(g, b) && Match(g, m, b) && GraphOk(g[Pde(e, i) := w], b)
    requires Dir(e) in g && i < USER_PDES && Pde(e, i) !in g
    requires w.flags.p && w.addr < b.npages && m[w.addr] == ZeroFrame() && w.addr != g[Dir(e)].addr
    ensures g[Dir(e)].addr < b.npages
    ensures var d := g[Dir(e)].addr; Match(g[Pde(e, i) := w], m[d := m[d][i := w]], b)
  {
    hide TableMatch, KernelMatch, AddressesExist, DirectoryOk, GraphOk;
    TargetsExist(g, b);
    var d := g[Dir(e)].addr;
    var g', m' := g[Pde(e, i) := w], m[d := m[d][i := w]];
    OtherTablesUntouched(g, b, Dir(e));
    DirectorySet(g, m, b, e, i, w);
    EmptyTable(g', e, i);
    forall e': nat | Dir(e') in g' ensures DirectoryOk(g', m', b, e') {
      if e' != e {
        DirectorySame(g, g', m, m', b, e');
      }
    }
    forall e': nat, i': nat | Pde(e', i') in g' ensures TableMatch(g', m'[g'[Pde(e', i')].addr], e', i') {
      if Pde(e', i') != Pde(e, i) {
        TableSame(g, g', m[g[Pde(e', i')].addr], e', i');
      }
    }
    KernelSame(g, g', m[b.kern]);
  }

  lemma EmptyTable(g: Graph, e: nat, i: nat)
    requires forall j: nat :: Pte(e, i, j) !in g
    ensures TableMatch(g, ZeroFrame(), e, i)
  {
  }

  lemma DirectorySet(g: Graph, m: seq<Frame>, b: Boot, e: nat, i: nat, w: Word)
    requires BootOk(b) && Dir(e) in g && g[Dir(e)].addr < |m| && b.kern < |m| && g[Dir(e)].addr != b.kern
    requires DirectoryOk(g, m, b, e) && i < USER_PDES && w.flags.p && w.addr < b.npages
    ensures var d := g[Dir(e)].addr; DirectoryOk(g[Pde(e, i) := w], m[d := m[d][i := w]], b, e)
  {
  }

  /** Clearing a directory entry whose table is empty. */
  lemma PdeClearKeeps(g: Graph, m: seq<Frame>, b: Boot, e: nat, i: nat)
    requires BootOk(b) && GraphOk(g, b) && Match(g, m, b)
    requires Pde(e, i) in g
    requires forall j: nat :: Pte(e, i, j) !in g
    ensures i < USER_PDES && Dir(e) in g
    ensures var d := g[Dir(e)].addr;
      && d < b.npages
      && GraphOk(g - {Pde(e, i)}, b)
      && Match(g - {Pde(e, i)}, m[d := m[d][i := ZERO]], b)
  {
    assert DirectoryOk(g, m, b, e);
    GraphOkRemove(g, b, Pde(e, i));
    PdeClearMatch(g, m, b, e, i);
  }

  lemma PdeClearMatch(g: Graph, m: seq<Frame>, b: Boot, e: nat, i: nat)
    requires BootOk(b) && GraphOk(g, b) && Match(g, m, b) && GraphOk(g - {Pde(e, i)}, b)
    requires Dir(e) in g && i < USER_PDES
    requires forall j: nat :: Pte(e, i, j) !in g
    ensures g[Dir(e)].addr < b.npages
    ensures var d := g[Dir(e)].addr; Match(g - {Pde(e, i)}, m[d := m[d][i := ZERO]], b)
  {
    hide DirectoryOk, TableMatch, KernelMatch, AddressesExist, GraphOk;
    TargetsExist(g, b);
    var d := g[Dir(e)].addr;
    var g', m' := g - {Pde(e, i)}, m[d := m[d][i := ZERO]];
    OtherTablesUntouched(g, b, Dir(e));
    DirectoryClear(g, m, b, e, i);
    forall e': nat | Dir(e') in g' ensures DirectoryOk(g', m', b, e') {
      if e' != e {
        DirectorySame(g, g', m, m', b, e');
      }
    }
    forall e': nat, i': nat | Pde(e', i') in g' ensures TableMatch(g', m'[g'[Pde(e', i')].addr], e', i') {
      TableSame(g, g', m[g[Pde(e', i')].addr], e', i');
    }
    KernelSame(g, g', m[b.kern]);
  }

  /** Forgetting an environment's directory once its user half is empty. */
  lemma DirDropKeeps(g: Graph, m: seq<Frame>, b: Boot, e: nat)
    requires BootOk(b) && GraphOk(g, b) && Match(g, m, b)
    requires Dir(e) in g
    requires forall i: nat :: Pde(e, i) !in g
    ensures GraphOk(g - {Dir(e)}, b)
    ensures Match(g - {Dir(e)}, m, b)
  {
    GraphOkRemove(g, b, Dir(e));
    DirDropMatch(g, m, b, e);
  }

  lemma DirDropMatch(g: Graph, m: seq<Frame>, b: Boot, e: nat)
    requires BootOk(b) && GraphOk(g, b) && Match(g, m, b) && GraphOk(g - {Dir(e)}, b)
    requires Dir(e) in g
    requires forall i: nat :: Pde(e, i) !in g
    ensures Match(g - {Dir(e)}, m, b)
  {
    hide DirectoryOk, TableMatch, KernelMatch, AddressesExist, GraphOk;
    TargetsExist(g, b);
    var g' := g - {Dir(e)};
    forall e': nat | Dir(e') in g' ensures DirectoryOk(g', m, b, e') {
      DirectorySame(g, g', m, m, b, e');
    }
    forall e': nat, i: nat | Pde(e', i) in g' ensures TableMatch(g', m[g'[Pde(e', i)].addr], e', i) {
      TableSame(g, g', m[g[Pde(e', i)].addr], e', i);
    }
    KernelSame(g, g', m[b.kern]);
  }

  /** Giving an environment a directory with an empty user half: a copy of kern_pgdir. */
  lemma DirAddKeeps(g: Graph, m: seq<Frame>, b: Boot, e: nat, d: nat)
    requires BootOk(b) && GraphOk(g, b) && Match(g, m, b)
    requires Dir(e) !in g && e < NENV
    requires 0 < d < b.npages && d !in b.pinned
    requires forall s | s in g :: g[s].addr != d
    requires IsFreshDirectory(m[d], m[b.kern], d)
    ensures GraphOk(g[Dir(e) := Word(d, NO_FLAGS)], b)
    ensures Match(g[Dir(e) := Word(d, NO_FLAGS)], m, b)
  {
    GraphOkAddDir(g, b, e, d);
    DirAddMatch(g, m, b, e, d);
  }

  /** What env_setup_vm makes of a page: a copy of kern_pgdir whose UVPT entry maps the page itself. */
  ghost predicate IsFreshDirectory(dir: Frame, kernDir: Frame, d: nat) {
    forall i | 0 <= i < NPTENTRIES :: dir[i] == if i == UVPT_PDX then Word(d, PU) else kernDir[i]
  }

  lemma GraphOkAddDir(g: Graph, b: Boot, e: nat, d: nat)
    requires GraphOk(g, b) && Dir(e) !in g && e < NENV
    requires 0 < d < b.npages && d !in b.pinned && d != b.kern
    requires forall s | s in g :: g[s].addr != d
    ensures GraphOk(g[Dir(e) := Word(d, NO_FLAGS)], b)
  {
  }

  lemma DirAddMatch(g: Graph, m: seq<Frame>, b: Boot, e: nat, d: nat)
    requires BootOk(b) && GraphOk(g, b) && Match(g, m, b) && GraphOk(g[Dir(e) := Word(d, NO_FLAGS)], b)
    requires Dir(e) !in g && d < b.npages && IsFreshDirectory(m[d], m[b.kern], d)
    ensures Match(g[Dir(e) := Word(d, NO_FLAGS)], m, b)
  {
    hide DirectoryOk, TableMatch, KernelMatch, AddressesExist, IsFreshDirectory, GraphOk;
    TargetsExist(g, b);
    var g' := g[Dir(e) := Word(d, NO_FLAGS)];
    KernelSame(g, g', m[b.kern]);
    FreshDirectory(g', m, b, e, d);
    forall e': nat | Dir(e') in g' ensures DirectoryOk(g', m, b, e') {
      if e' != e {
        DirectorySame(g, g', m, m, b, e');
      }
    }
    forall e': nat, i: nat | Pde(e', i) in g' ensures TableMatch(g', m[g'[Pde(e', i)].addr], e', i) {
      TableSame(g, g', m[g[Pde(e', i)].addr], e', i);
    }
  }

  lemma FreshDirectory(g: Graph, m: seq<Frame>, b: Boot, e: nat, d: nat)
    requires b.kern < |m| && Dir(e) in g && g[Dir(e)].addr == d < |m| && d < b.npages
    requires forall i: nat :: Pde(e, i) !in g
    requires KernelMatch(g, m[b.kern]) && AddressesExist(m[b.kern], b.npages) && IsFreshDirectory(m[d], m[b.kern], d)
    ensures DirectoryOk(g, m, b, e)
  {
  }

  /** Hanging a zeroed page as a new table into the kernel half of kern_pgdir, while no environment copies it. */
  lemma KernWriteKeeps(g: Graph, m: seq<Frame>, b: Boot, i: nat, w: Word)
    requires BootOk(b) && GraphOk(g, b) && Match(g, m, b)
    requires USER_PDES <= i < NPTENTRIES && i != UVPT_PDX && Kern(i) !in g
    requires forall e: nat :: Dir(e) !in g
    requires w.flags == PWU && 0 < w.addr < b.npages && w.addr !in b.pinned
    requires forall s | s in g :: g[s].addr != w.addr
    ensures GraphOk(g[Kern(i) := w], b)
    ensures Match(g[Kern(i) := w], m[b.kern := m[b.kern][i := w]], b)
  {
  }

  /** Memory determines the graph: there is no second graph that matches. */
  lemma MatchUnique(g: Graph, g': Graph, m: seq<Frame>, b: Boot)
    requires BootOk(b) && GraphOk(g, b) && Match(g, m, b) && GraphOk(g', b) && Match(g', m, b)
    requires forall e: nat :: Dir(e) in g <==> Dir(e) in g'
    requires forall e: nat | Dir(e) in g :: g[Dir(e)] == g'[Dir(e)]
    ensures g == g'
  {
    forall s ensures s in g <==> s in g' {
      match s case Dir(_) => case Pde(_, _) => case Pte(_, _, _) => case Kern(_) =>
    }
    forall s | s in g ensures g[s] == g'[s] {
      match s case Dir(_) => case Pde(_, _) => case Pte(_, _, _) => case Kern(_) =>
    }
  }
}

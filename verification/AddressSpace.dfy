/** The flat view: each environment's user half as a map from page number to (physical page, permissions). */
module AddressSpace {
  import opened Layout
  import opened Graph
  import opened PageState
  import opened Tables
  import opened Steps

  /** The slot of page number `v`. */
  ghost function SlotOf(e: nat, v: nat): Slot { Pte(e, v / NPTENTRIES, v % NPTENTRIES) }

  /** What environment `e` sees below UTOP, by page number. */
  ghost function Flat(g: Graph, e: nat): map<nat, Word> {
    map v: nat | v < USER_PAGES && SlotOf(e, v) in g :: g[SlotOf(e, v)]
  }

  lemma FlatAt(g: Graph, e: nat, v: nat)
    ensures v in Flat(g, e) <==> v < USER_PAGES && SlotOf(e, v) in g
    ensures v in Flat(g, e) ==> Flat(g, e)[v] == g[SlotOf(e, v)]
  {
    hide SlotOf;
  }

  /** Page `v` of environment `e` is mapped nowhere else. */
  ghost predicate Private(g: Graph, e: nat, v: nat) {
    v in Flat(g, e) &&
    forall e': nat, v': nat | v' in Flat(g, e') && (e' != e || v' != v) :: Flat(g, e')[v'].addr != Flat(g, e)[v].addr
  }

  /** The slot of the page at `va`. */
  ghost function At(e: nat, va: nat): Slot
    requires va < UTOP
  {
    Pte(e, PDX(va), PTX(va))
  }

  lemma IndexesOfPageNumber(va: nat)
    requires va < UTOP
    ensures PGNUM(va) < USER_PAGES && PDX(va) == PGNUM(va) / NPTENTRIES && PTX(va) == PGNUM(va) % NPTENTRIES
  {
    assert va / PTSIZE == va / PGSIZE / NPTENTRIES;
  }

  lemma SplitIsUnique(v: nat, v': nat)
    requires v / NPTENTRIES == v' / NPTENTRIES && v % NPTENTRIES == v' % NPTENTRIES
    ensures v == v'
  {
  }

  /** A slot is the slot at an address exactly for the page and the environment of that address. */
  lemma SlotIsAt(e: nat, va: nat, e': nat, v: nat)
    requires va < UTOP
    ensures PGNUM(va) < USER_PAGES
    ensures SlotOf(e', v) == At(e, va) <==> v == PGNUM(va) && e' == e
  {
    IndexesOfPageNumber(va);
    hide PDX, PTX, PGNUM;
    if SlotOf(e', v) == At(e, va) {
      SplitIsUnique(v, PGNUM(va));
    }
  }

  /** page_lookup reads the flat map. */
  lemma LookupReads(g: Graph, e: nat, va: nat)
    requires va < UTOP
    ensures At(e, va) in g <==> PGNUM(va) in Flat(g, e)
    ensures At(e, va) in g ==> Flat(g, e)[PGNUM(va)] == g[At(e, va)]
  {
    hide SlotOf, At, PGNUM, Flat;
    SlotIsAt(e, va, e, PGNUM(va));
    FlatAt(g, e, PGNUM(va));
  }

  /** A graph that differs in the slot at `va` only shows the same of every other page. */
  lemma OthersShown(g: Graph, g': Graph, e: nat, va: nat, e': nat, v: nat)
    requires va < UTOP && (e' != e || v != PGNUM(va))
    requires forall s | s != At(e, va) :: (s in g <==> s in g') && (s in g ==> g'[s] == g[s])
    ensures v in Flat(g', e') <==> v in Flat(g, e')
    ensures v in Flat(g, e') ==> Flat(g', e')[v] == Flat(g, e')[v]
  {
    hide SlotOf, At, PGNUM, Flat;
    SlotIsAt(e, va, e', v);
    FlatAt(g, e', v);
    FlatAt(g', e', v);
  }

  /** page_insert updates one page of one environment. */
  lemma InsertUpdates(g: Graph, e: nat, va: nat, w: Word)
    requires va < UTOP
    ensures Flat(g[At(e, va) := w], e) == Flat(g, e)[PGNUM(va) := w]
    ensures forall e': nat | e' != e :: Flat(g[At(e, va) := w], e') == Flat(g, e')
  {
    hide SlotOf, At, PGNUM, Flat;
    var g' := g[At(e, va) := w];
    LookupReads(g', e, va);
    forall e': nat, v: nat | e' != e || v != PGNUM(va)
      ensures v in Flat(g', e') <==> v in Flat(g, e')
      ensures v in Flat(g, e') ==> Flat(g', e')[v] == Flat(g, e')[v]
    {
      OthersShown(g, g', e, va, e', v);
    }
  }

  /** page_remove deletes one page of one environment. */
  lemma RemoveDeletes(g: Graph, e: nat, va: nat)
    requires va < UTOP
    ensures Flat(g - {At(e, va)}, e) == Flat(g, e) - {PGNUM(va)}
    ensures forall e': nat | e' != e :: Flat(g - {At(e, va)}, e') == Flat(g, e')
  {
    hide SlotOf, At, PGNUM, Flat;
    var g' := g - {At(e, va)};
    LookupReads(g', e, va);
    forall e': nat, v: nat | e' != e || v != PGNUM(va)
      ensures v in Flat(g', e') <==> v in Flat(g, e')
      ensures v in Flat(g, e') ==> Flat(g', e')[v] == Flat(g, e')[v]
    {
      OthersShown(g, g', e, va, e', v);
    }
  }

  /** Tables and directories are invisible: a graph that differs in no page entry shows the same. */
  lemma SamePages(g: Graph, g': Graph)
    requires forall s: Slot | s.Pte? :: (s in g <==> s in g') && (s in g ==> g'[s] == g[s])
    ensures forall e: nat :: Flat(g', e) == Flat(g, e)
  {
  }

  /** Two environments, or two pages, never share a table: the translation the hardware makes by walking memory from
      the directory is exactly the flat map. */
  lemma WalkIsFlat(c: Counts, g: Graph, m: seq<Frame>, b: Boot, h: Held, e: nat, va: nat)
    requires Inv(c, g, m, b, h) && Dir(e) in g && va < UTOP
    ensures g[Dir(e)].addr < |m|
    ensures var pde := m[g[Dir(e)].addr][PDX(va)];
      && (pde.flags.p ==> pde.addr < |m|)
      && (PGNUM(va) in Flat(g, e) <==> pde.flags.p && m[pde.addr][PTX(va)].flags.p)
      && (PGNUM(va) in Flat(g, e) ==> Flat(g, e)[PGNUM(va)] == m[pde.addr][PTX(va)])
  {
    LookupReads(g, e, va);
    assert DirectoryOk(g, m, b, e);
    if Pde(e, PDX(va)) in g {
      assert TableMatch(g, m[g[Pde(e, PDX(va))].addr], e, PDX(va));
    }
  }
}

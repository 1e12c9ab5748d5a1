/** What an environment's memory is safe from: changes made on behalf of others. */
module Isolation {
  import opened Layout
  import opened Graph
  import opened EnvOps
  import opened AddressSpace
  import opened Syscall
  import opened WriteOnce

  ghost predicate MapsAt(g: Graph, e: nat, v: nat, p: nat) {
    v in Flat(g, e) && Flat(g, e)[v].addr == p
  }

  /** Environment `e` maps page `p`, and no other environment can write to it. The screen is everybody's. */
  ghost predicate Owns(g: Graph, e: nat, p: nat) {
    && p != VGA_PAGE && (exists v: nat :: MapsAt(g, e, v, p))
    && forall e': nat, v: nat | e' != e :: !WritableAt(g, p, e', v)
  }

  /** Environment `e` keeps its directory and its map, and every page it owns stays its own. */
  ghost predicate Spared(g: Graph, g': Graph, e: nat) {
    && (Dir(e) in g ==> Dir(e) in g')
    && Flat(g', e) == Flat(g, e)
    && forall p: nat | Owns(g, e, p) :: Owns(g', e, p)
  }

  lemma SpareSame(g: Graph, e: nat)
    ensures Spared(g, g, e)
  {
  }

  lemma ThenSpared(g: Graph, g1: Graph, g2: Graph, e: nat)
    requires Spared(g, g1, e) && Spared(g1, g2, e)
    ensures Spared(g, g2, e)
  {
    hide Flat, Owns;
  }

  lemma StillOwns(g: Graph, g': Graph, e: nat, p: nat)
    requires Owns(g, e, p) && Flat(g', e) == Flat(g, e)
    requires forall e': nat, v: nat | e' != e && WritableAt(g', p, e', v) :: WritableAt(g, p, e', v)
    ensures Owns(g', e, p)
  {
    hide Flat;
    var v: nat :| MapsAt(g, e, v, p);
    assert MapsAt(g', e, v, p);
  }

  /** A change to one page of another environment, which gives it no write permission to a page that `e` owns. */
  lemma RemapSpares(g: Graph, g': Graph, t: nat, va: nat, w: Word, e: nat)
    requires va < UTOP && t != e && Remapped(g, g', t, va, w)
    requires w.flags.w ==> !Owns(g, e, w.addr)
    ensures Spared(g, g', e)
  {
    hide Flat;
    forall p: nat | Owns(g, e, p) ensures Owns(g', e, p) {
      forall e': nat, v: nat | e' != e && WritableAt(g', p, e', v) ensures WritableAt(g, p, e', v) {
        assert e' != t || v != PGNUM(va);
      }
      StillOwns(g, g', e, p);
    }
  }

  /** Others' losses. */
  lemma LossSpares(g: Graph, g': Graph, e: nat)
    requires Flat(g', e) == Flat(g, e) && (Dir(e) in g ==> Dir(e) in g')
    requires forall e': nat, v: nat | v in Flat(g', e') :: v in Flat(g, e') && Flat(g, e')[v] == Flat(g', e')[v]
    ensures Spared(g, g', e)
  {
    hide Flat;
    forall p: nat | Owns(g, e, p) ensures Owns(g', e, p) {
      StillOwns(g, g', e, p);
    }
  }

  lemma DestroySpares(g: Graph, t: nat, e: nat)
    requires t != e
    ensures Spared(g, WithoutEnv(g, t), e)
  {
    LossSpares(g, WithoutEnv(g, t), e);
  }

  /** A new environment gets nothing but the screen. */
  lemma BirthSpares(g: Graph, g': Graph, child: nat, d: nat, e: nat)
    requires Dir(child) !in g && Dir(e) in g
    requires Remapped(g[Dir(child) := Word(d, NO_FLAGS)], g', child, VGA_USER, Word(VGA_PAGE, VGA_FLAGS))
    ensures Spared(g, g', e)
  {
    hide Remapped, Spared;
    var g1 := g[Dir(child) := Word(d, NO_FLAGS)];
    NewDirectorySpares(g, child, d, e);
    RemapSpares(g1, g', child, VGA_USER, Word(VGA_PAGE, VGA_FLAGS), e);
    ThenSpared(g, g1, g', e);
  }

  lemma NewDirectorySpares(g: Graph, child: nat, d: nat, e: nat)
    ensures Spared(g, g[Dir(child) := Word(d, NO_FLAGS)], e)
  {
    hide Flat;
    var g1 := g[Dir(child) := Word(d, NO_FLAGS)];
    SamePages(g, g1);
    forall p: nat | Owns(g, e, p) ensures Owns(g1, e, p) {
      StillOwns(g, g1, e, p);
    }
  }

  /** Nobody else has a writable mapping of a page that `e` owns to hand on. */
  lemma NothingToHandOn(g: Graph, e: nat, s: nat, va: nat)
    requires va < UTOP && s != e && At(s, va) in g && g[At(s, va)].flags.w
    ensures !Owns(g, e, g[At(s, va)].addr)
  {
    LookupReads(g, s, va);
    assert WritableAt(g, g[At(s, va)].addr, s, PGNUM(va));
  }

  /** A page that nobody refers to is owned by nobody. */
  lemma UnusedIsNotOwned(g: Graph, e: nat, p: nat)
    requires !Referenced(g, p)
    ensures !Owns(g, e, p)
  {
  }

  lemma UnmapSpares(g: Graph, g': Graph, t: nat, va: nat, e: nat)
    requires va < UTOP && t != e && SameDirs(g, g')
    requires Flat(g', t) == Flat(g, t) - {PGNUM(va)} && forall e': nat | e' != t :: Flat(g', e') == Flat(g, e')
    ensures Spared(g, g', e)
  {
    hide Flat;
    LossSpares(g, g', e);
  }

  /** Handing over a page of another environment, to another one. */
  lemma TransferSpares(g: Graph, free: nat, g': Graph, cur: nat, t: nat, srcva: nat, dstva: nat, perm: Word, e: nat)
    requires SendsPage(srcva, dstva) ==> TransferResult(g, free, cur, t, srcva, dstva, perm) == Ret(0) && t != e
    requires HandedOver(g, g', cur, t, srcva, dstva, perm) && cur != e
    ensures Spared(g, g', e)
  {
    hide Remapped, Flat, Owns;
    SpareSame(g, e);
    if SendsPage(srcva, dstva) {
      if perm.flags.w {
        NothingToHandOn(g, e, cur, srcva);
      }
      RemapSpares(g, g', t, dstva, Word(g[At(cur, srcva)].addr, perm.flags.(p := true)), e);
    }
  }
}

/** Write permission to a page in use is handed on only by those who have it. */
module WriteOnce {
  import opened Layout
  import opened Graph
  import opened EnvOps
  import opened AddressSpace
  import opened Syscall

  /** Some environment maps page `p` writable. */
  ghost predicate Writable(g: Graph, p: nat) {
    exists e: nat, v: nat :: WritableAt(g, p, e, v)
  }

  ghost predicate WritableAt(g: Graph, p: nat, e: nat, v: nat) {
    v in Flat(g, e) && Flat(g, e)[v].addr == p && Flat(g, e)[v].flags.w
  }

  ghost predicate Referenced(g: Graph, p: nat) {
    exists s :: s in g && g[s].addr == p
  }

  /** A page in use, other than the screen, that nobody could write before cannot be written by anybody after. */
  ghost predicate NoNewWriter(g: Graph, g': Graph) {
    forall p: nat | p != VGA_PAGE && Referenced(g, p) && Writable(g', p) :: Writable(g, p)
  }

  /** Changing one page entry hands on write permission only to a page already writable, the screen, or a free page. */
  lemma RemapHandsOn(g: Graph, g': Graph, e: nat, va: nat, w: Word)
    requires va < UTOP && Remapped(g, g', e, va, w)
    requires w.flags.w ==> w.addr == VGA_PAGE || Writable(g, w.addr) || !Referenced(g, w.addr)
    ensures NoNewWriter(g, g')
  {
    hide Flat;
    forall p: nat | p != VGA_PAGE && Referenced(g, p) && Writable(g', p) ensures Writable(g, p) {
      var e': nat, v': nat :| WritableAt(g', p, e', v');
      if e' != e || v' != PGNUM(va) {
        assert WritableAt(g, p, e', v');
      }
    }
  }

  /** Losing mappings gives nobody write permission. */
  lemma LossHandsOn(g: Graph, g': Graph)
    requires forall e: nat, v: nat | v in Flat(g', e) :: v in Flat(g, e) && Flat(g, e)[v] == Flat(g', e)[v]
    ensures NoNewWriter(g, g')
  {
    hide Flat;
    forall p: nat | p != VGA_PAGE && Referenced(g, p) && Writable(g', p) ensures Writable(g, p) {
      var e: nat, v: nat :| WritableAt(g', p, e, v);
      assert WritableAt(g, p, e, v);
    }
  }

  lemma DestroyHandsOn(g: Graph, e: nat)
    ensures NoNewWriter(g, WithoutEnv(g, e))
  {
    LossHandsOn(g, WithoutEnv(g, e));
  }

  /** A new environment gets write permission to the screen only. */
  lemma BirthHandsOn(g: Graph, g': Graph, child: nat, d: nat)
    requires Dir(child) !in g
    requires Remapped(g[Dir(child) := Word(d, NO_FLAGS)], g', child, VGA_USER, Word(VGA_PAGE, VGA_FLAGS))
    ensures NoNewWriter(g, g')
  {
    hide Flat;
    var g1 := g[Dir(child) := Word(d, NO_FLAGS)];
    SamePages(g, g1);
    RemapHandsOn(g1, g', child, VGA_USER, Word(VGA_PAGE, VGA_FLAGS));
    forall p: nat | p != VGA_PAGE && Referenced(g, p) && Writable(g', p) ensures Writable(g, p) {
      var s :| s in g && g[s].addr == p;
      assert s in g1 && g1[s].addr == p;
      assert Writable(g1, p);
      var e: nat, v: nat :| WritableAt(g1, p, e, v);
      assert WritableAt(g, p, e, v);
    }
  }

  /** A mapping made from an existing one asks for write permission only if that one has it. */
  lemma SourceIsWritable(g: Graph, e: nat, va: nat)
    requires va < UTOP && At(e, va) in g && g[At(e, va)].flags.w
    ensures Writable(g, g[At(e, va)].addr)
  {
    LookupReads(g, e, va);
    assert WritableAt(g, g[At(e, va)].addr, e, PGNUM(va));
  }

  lemma MapHandsOn(g: Graph, free: nat, g': Graph, src: Option<nat>, srcva: nat, dst: Option<nat>, dstva: nat,
                   perm: Word)
    requires srcva < ADDRESS_LIMIT && dstva < UTOP && src.Some? && dst.Some? && srcva < UTOP
    requires At(src.value, srcva) in g
    requires PageMapResult(g, free, src, srcva, dst, dstva, perm) == Ret(0)
    requires Remapped(g, g', dst.value, dstva, Word(g[At(src.value, srcva)].addr, perm.flags))
    ensures NoNewWriter(g, g')
  {
    hide Remapped, Writable, NoNewWriter;
    if perm.flags.w {
      SourceIsWritable(g, src.value, srcva);
    }
    RemapHandsOn(g, g', dst.value, dstva, Word(g[At(src.value, srcva)].addr, perm.flags));
  }

  lemma TransferHandsOn(g: Graph, free: nat, g': Graph, cur: nat, t: nat, srcva: nat, dstva: nat, perm: Word)
    requires SendsPage(srcva, dstva) ==> TransferResult(g, free, cur, t, srcva, dstva, perm) == Ret(0)
    requires HandedOver(g, g', cur, t, srcva, dstva, perm)
    ensures NoNewWriter(g, g')
  {
    hide Remapped, Flat;
    if SendsPage(srcva, dstva) {
      if perm.flags.w {
        SourceIsWritable(g, cur, srcva);
      }
      RemapHandsOn(g, g', t, dstva, Word(g[At(cur, srcva)].addr, perm.flags.(p := true)));
    }
  }

  /** A page that comes into use, other than the screen, holds zeros. */
  ghost predicate NewPagesZero(g: Graph, g': Graph, m': seq<Frame>) {
    forall e: nat, v: nat
      | v in Flat(g', e) && Flat(g', e)[v].addr != VGA_PAGE && !Referenced(g, Flat(g', e)[v].addr) ::
      Flat(g', e)[v].addr < |m'| && m'[Flat(g', e)[v].addr] == ZeroFrame()
  }

  lemma MappedIsReferenced(g: Graph, e: nat, v: nat)
    requires v in Flat(g, e)
    ensures Referenced(g, Flat(g, e)[v].addr)
  {
    FlatAt(g, e, v);
  }

  lemma LossBringsNone(g: Graph, g': Graph, m': seq<Frame>)
    requires forall e: nat, v: nat | v in Flat(g', e) :: v in Flat(g, e) && Flat(g, e)[v] == Flat(g', e)[v]
    ensures NewPagesZero(g, g', m')
  {
    hide Flat, Referenced;
    forall e: nat, v: nat | v in Flat(g', e) ensures Referenced(g, Flat(g', e)[v].addr) {
      MappedIsReferenced(g, e, v);
    }
  }

  lemma DestroyBringsNone(g: Graph, e: nat, m': seq<Frame>)
    ensures NewPagesZero(g, WithoutEnv(g, e), m') && NewPagesZero(g, g, m')
  {
    LossBringsNone(g, WithoutEnv(g, e), m');
    LossBringsNone(g, g, m');
  }

  /** Changing one page entry brings a page into use only if that is where the entry leads. */
  lemma RemapBrings(g: Graph, g': Graph, e: nat, va: nat, w: Word, m': seq<Frame>)
    requires va < UTOP && Remapped(g, g', e, va, w)
    requires w.addr == VGA_PAGE || Referenced(g, w.addr) || (w.addr < |m'| && m'[w.addr] == ZeroFrame())
    ensures NewPagesZero(g, g', m')
  {
    hide Flat, Referenced;
    forall e': nat, v: nat | v in Flat(g', e') && (e' != e || v != PGNUM(va))
      ensures Referenced(g, Flat(g', e')[v].addr)
    {
      MappedIsReferenced(g, e', v);
    }
  }

  lemma BirthBrings(g: Graph, g': Graph, child: nat, d: nat, m': seq<Frame>)
    requires Dir(child) !in g
    requires Remapped(g[Dir(child) := Word(d, NO_FLAGS)], g', child, VGA_USER, Word(VGA_PAGE, VGA_FLAGS))
    ensures NewPagesZero(g, g', m')
  {
    hide Flat, Referenced;
    SamePages(g, g[Dir(child) := Word(d, NO_FLAGS)]);
    forall e: nat, v: nat | v in Flat(g', e) && (e != child || v != PGNUM(VGA_USER))
      ensures Referenced(g, Flat(g', e)[v].addr)
    {
      MappedIsReferenced(g, e, v);
    }
  }

  lemma SlotIsReferenced(g: Graph, s: Slot)
    requires s in g
    ensures Referenced(g, g[s].addr)
  {
  }
}

/** user_mem_check (kern/pmap.c:634-663): may an environment access a range of addresses? */
module UserMem {
  import opened Layout
  import opened Graph
  import opened PageState
  import opened Tables
  import opened Steps
  import opened EnvState
  import opened Pmap

  /** The page entry found by walking from directory `d`, if it is present. */
  function EntryAt(m: seq<Frame>, d: nat, va: nat): Option<Word>
    requires d < |m| && va < ADDRESS_LIMIT
  {
    var pde := m[d][PDX(va)];
    if pde.flags.p && pde.addr < |m| && m[pde.addr][PTX(va)].flags.p then Some(m[pde.addr][PTX(va)]) else None
  }

  /** The byte at `va` is mapped with every bit of `perm`. */
  predicate Accessible(m: seq<Frame>, d: nat, va: nat, perm: Flags)
    requires d < |m| && va < ADDRESS_LIMIT
  {
    EntryAt(m, d, va).Some? && Includes(EntryAt(m, d, va).value.flags, perm)
  }

  /** All bytes of [lo, hi) are accessible. */
  ghost predicate AllAccessible(m: seq<Frame>, d: nat, lo: nat, hi: nat, perm: Flags)
    requires d < |m| && hi <= ADDRESS_LIMIT
  {
    forall a | lo <= a < hi :: Accessible(m, d, a, perm)
  }

  /** page_lookup panics at `va`: an entry on the way names a page that does not exist, and KADDR or pa2page checks. */
  predicate LookupPanics(m: seq<Frame>, d: nat, va: nat)
    requires d < |m| && va < ADDRESS_LIMIT
  {
    var pde := m[d][PDX(va)];
    pde.addr >= |m| || (pde.flags.p && m[pde.addr][PTX(va)].flags.p && m[pde.addr][PTX(va)].addr >= |m|)
  }

  /** The check gets past every byte of [lo, hi). */
  ghost predicate AllPassed(m: seq<Frame>, d: nat, lo: nat, hi: nat, perm: Flags)
    requires d < |m| && hi <= ADDRESS_LIMIT
  {
    forall a | lo <= a < hi :: Accessible(m, d, a, perm) && !LookupPanics(m, d, a)
  }

  /** Bytes of one page are accessible together. */
  lemma SamePageSameAccess(m: seq<Frame>, d: nat, a: nat, a': nat, perm: Flags)
    requires d < |m| && a < ADDRESS_LIMIT && a' < ADDRESS_LIMIT && PGNUM(a) == PGNUM(a')
    ensures Accessible(m, d, a, perm) <==> Accessible(m, d, a', perm)
  {
    IndexesIdentifyPage(a, a');
  }

  /** The first byte of page `pn` that is not before `lo`. */
  function FirstByte(lo: nat, pn: nat): nat { if pn * PGSIZE < lo then lo else pn * PGSIZE }

  /** The byte-by-byte walk agrees with a walk that looks at one byte of every page touched. */
  lemma PageWalkAgrees(m: seq<Frame>, d: nat, lo: nat, hi: nat, perm: Flags)
    requires d < |m| && lo < hi <= ADDRESS_LIMIT
    ensures AllAccessible(m, d, lo, hi, perm) <==>
            forall pn: nat | PGNUM(lo) <= pn <= PGNUM(hi - 1) :: Accessible(m, d, FirstByte(lo, pn), perm)
  {
    if forall pn: nat | PGNUM(lo) <= pn <= PGNUM(hi - 1) :: Accessible(m, d, FirstByte(lo, pn), perm) {
      forall a | lo <= a < hi ensures Accessible(m, d, a, perm) {
        var pn := PGNUM(a);
        var first := FirstByte(lo, pn);
        assert Accessible(m, d, first, perm);
        assert PGNUM(first) == pn;
        SamePageSameAccess(m, d, a, first, perm);
      }
    }
  }

  /** The end of the range in 32-bit arithmetic. */
  function End32(va: nat, len: nat): nat { (va + len) % ADDRESS_LIMIT }

  /** How the check ends: with 0, with -E_FAULT and this address in user_mem_check_addr, or in a panic of page_lookup.
      */
  datatype Verdict = Allowed | Fault(addr: nat) | LookupPanic

  /** The verdict on bytes below ULIM is decided by the first byte that is not accessible or makes page_lookup panic. */
  ghost predicate Decided(m: seq<Frame>, d: nat, va: nat, hi: nat, perm: Flags, v: Verdict)
    requires d < |m| && hi <= ADDRESS_LIMIT
  {
    match v
    case Allowed => AllPassed(m, d, va, hi, perm)
    case Fault(a) =>
      va <= a < hi && AllPassed(m, d, va, a, perm) && !Accessible(m, d, a, perm) && !LookupPanics(m, d, a)
    case LookupPanic => exists a | va <= a < hi :: AllPassed(m, d, va, a, perm) && LookupPanics(m, d, a)
  }

  /** What the two comparisons before the loop let through. */
  predicate BelowUlim(va: nat, len: nat) { va < ULIM && va + len < ULIM }

  method UserMemCheck(k: Kernel, e: nat, va: nat, len: nat, perm: Flags) returns (v: Verdict)
    requires va < ADDRESS_LIMIT && len < ADDRESS_LIMIT && |k.pages| == |k.mem|
    requires e < |k.envs| && k.envs[e].pgdir.Some? && k.envs[e].pgdir.value < |k.mem|
    ensures !BelowUlim(va, len) ==> v == Fault(if va >= ULIM then va else ULIM)
    ensures BelowUlim(va, len) ==> Decided(k.mem, k.envs[e].pgdir.value, va, va + len, perm, v)
  {
    var xva := va;
    var lim_va := End32(va, len);
    if xva >= ULIM {
      return Fault(xva);
    }
    if lim_va >= ULIM || lim_va < xva {
      return Fault(ULIM);
    }
    var d := k.envs[e].pgdir.value;
    while xva < lim_va
      invariant va <= xva && (xva <= lim_va || xva == va)
      invariant AllPassed(k.mem, d, va, xva, perm)
    {
      if LookupPanics(k.mem, d, xva) {
        return LookupPanic;
      }
      var page, pte := k.PageLookup(d, xva);
      if page == None {
        assert !Accessible(k.mem, d, xva, perm);
        return Fault(xva);
      }
      if !Includes(k.mem[pte.value.frame][pte.value.index].flags, perm) {
        assert !Accessible(k.mem, d, xva, perm);
        return Fault(xva);
      }
      xva := xva + 1;
    }
    return Allowed;
  }

  /** What the comment above user_mem_check promises: every address is below ULIM and the tables allow it. */
  ghost predicate MayAccess(m: seq<Frame>, d: nat, va: nat, len: nat, perm: Flags)
    requires d < |m|
  {
    forall a: nat | va <= a < va + len :: ByteAllowed(m, d, a, perm)
  }

  ghost predicate ByteAllowed(m: seq<Frame>, d: nat, a: nat, perm: Flags)
    requires d < |m|
  {
    a < ULIM && Accessible(m, d, a, perm)
  }

  /** The check agrees with its comment except on ranges that end at ULIM, on empty ones at or above it, and where
      page_lookup panics. */
  lemma CheckAgainstItsComment(m: seq<Frame>, d: nat, va: nat, len: nat, perm: Flags, v: Verdict)
    requires d < |m| && va < ADDRESS_LIMIT && len < ADDRESS_LIMIT
    requires if BelowUlim(va, len) then Decided(m, d, va, va + len, perm, v) else v.Fault?
    ensures v.Allowed? <==>
      && MayAccess(m, d, va, len, perm) && va + len != ULIM && !(len == 0 && va >= ULIM)
      && forall a | va <= a < va + len && a < ULIM :: !LookupPanics(m, d, a)
  {
    if MayAccess(m, d, va, len, perm) && len > 0 {
      assert ByteAllowed(m, d, va + len - 1, perm);
      forall a | va <= a < va + len ensures Accessible(m, d, a, perm) {
        assert ByteAllowed(m, d, a, perm);
      }
    }
  }

  /** A state and ranges of both kinds: where the kernel window is made of 4 KB pages, every environment may read the
      last byte below ULIM, which is in the table of the top 4 MB as UVPT shows it, and no byte of an empty range is at
      or above ULIM. The comment allows both; the check refuses both. */
  lemma RefusedAgainstItsComment(c: Counts, g: Graph, m: seq<Frame>, b: Boot, h: Held, e: nat)
    requires Inv(c, g, m, b, h) && Dir(e) in g && Kern(NPTENTRIES - 1) in g
    ensures g[Dir(e)].addr < |m|
    ensures MayAccess(m, g[Dir(e)].addr, ULIM - 1, 1, PU) && !BelowUlim(ULIM - 1, 1)
    ensures MayAccess(m, g[Dir(e)].addr, ULIM, 0, PU) && !BelowUlim(ULIM, 0)
  {
    LastEntry(c, g, m, b, h, e);
    hide Inv;
    LastByte(m, g[Dir(e)].addr);
    forall a: nat | ULIM - 1 <= a < ULIM ensures ByteAllowed(m, g[Dir(e)].addr, a, PU) {
      assert a == ULIM - 1;
    }
  }

  /** The panic of page_lookup is real as well: where the kernel window is made of 4 MB pages and reaches beyond the
      memory there is, the last byte below ULIM is in the entry of the last of them, whose page does not exist. */
  lemma LargeWindowPanics(c: Counts, g: Graph, m: seq<Frame>, b: Boot, h: Held, e: nat)
    requires Inv(c, g, m, b, h) && Dir(e) in g && b.kern < |m|
    requires m[b.kern][NPTENTRIES - 1].flags.p && m[b.kern][NPTENTRIES - 1].addr >= b.npages
    ensures g[Dir(e)].addr < |m| && LookupPanics(m, g[Dir(e)].addr, ULIM - 1)
  {
    hide CountInv;
    assert DirectoryOk(g, m, b, e);
    assert PDX(ULIM - 1) == UVPT_PDX && PTX(ULIM - 1) == NPTENTRIES - 1;
  }

  lemma LastByte(m: seq<Frame>, d: nat)
    requires d < |m| && m[d][UVPT_PDX] == Word(d, PU) && m[d][NPTENTRIES - 1].flags == PWU
    ensures Accessible(m, d, ULIM - 1, PU)
  {
    assert PDX(ULIM - 1) == UVPT_PDX && PTX(ULIM - 1) == NPTENTRIES - 1;
  }

  lemma LastEntry(c: Counts, g: Graph, m: seq<Frame>, b: Boot, h: Held, e: nat)
    requires Inv(c, g, m, b, h) && Dir(e) in g && Kern(NPTENTRIES - 1) in g
    ensures g[Dir(e)].addr < |m|
    ensures var d := g[Dir(e)].addr; m[d][UVPT_PDX] == Word(d, PU) && m[d][NPTENTRIES - 1].flags == PWU
  {
    hide CountInv;
    assert DirectoryOk(g, m, b, e);
  }

  /** For ranges below UTOP page_lookup never panics: in every state with the invariant the walks stay in memory. */
  lemma UserRangesNeverPanic(k: Kernel, e: nat, va: nat, len: nat, perm: Flags, v: Verdict)
    requires k.PageInv(NOTHING) && k.EnvsInv() && e < NENV == |k.envs| && k.envs[e].status != Free && va + len <= UTOP
    ensures k.envs[e].pgdir.Some? && k.envs[e].pgdir.value < |k.mem|
    ensures Decided(k.mem, k.envs[e].pgdir.value, va, va + len, perm, v) ==> !v.LookupPanic?
  {
    hide Inv, EnvInv;
    SlotInUse(k.envs, k.envFreeList, k.envFree, k.allocs, k.g, e);
    k.WalkFollowsGraph(e, k.envs[e].pgdir.value, 0, NOTHING);
    forall a | va <= a < va + len ensures !LookupPanics(k.mem, k.envs[e].pgdir.value, a) {
      k.WalkFollowsGraph(e, k.envs[e].pgdir.value, a, NOTHING);
    }
  }
}

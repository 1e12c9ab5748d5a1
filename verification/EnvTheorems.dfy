/** What creating and freeing environments does to the physical pages as a whole. */
module EnvTheorems {
  import opened Layout
  import opened Graph
  import opened PageState
  import opened Tables
  import opened Steps
  import opened EnvState
  import opened Pmap
  import opened EnvOps

  /** The references to page `p` held by environment `e`: mappings, tables and the directory. */
  ghost function OwnRefs(g: Graph, e: nat, p: nat): set<Slot> {
    set s | s in Refs(g, p) && Owned(s, e)
  }

  lemma RefsSplit(g: Graph, e: nat, p: nat)
    ensures Refs(g, p) == Refs(WithoutEnv(g, e), p) + OwnRefs(g, e, p)
    ensures |Refs(g, p)| == |Refs(WithoutEnv(g, e), p)| + |OwnRefs(g, e, p)|
  {
    assert Refs(g, p) == Refs(WithoutEnv(g, e), p) + OwnRefs(g, e, p);
    assert Refs(WithoutEnv(g, e), p) !! OwnRefs(g, e, p);
  }

  /** env_free gives back exactly what the environment held: every count drops by the environment's own references,
      and the pages that become free are those that nobody else refers to. */
  lemma FreeReturnsWhatWasHeld(c: Counts, m: seq<Frame>, c': Counts, m': seq<Frame>, g: Graph, b: Boot, e: nat, p: nat)
    requires Inv(c, g, m, b, NOTHING) && Inv(c', WithoutEnv(g, e), m', b, NOTHING)
    requires 0 < p < b.npages
    ensures |c.pages| == |c'.pages| == b.npages
    ensures c.pages[p].ref == c'.pages[p].ref + |OwnRefs(g, e, p)|
    ensures p in c'.free <==>
      p in c.free || (p !in b.pinned && OwnRefs(g, e, p) != {} && OwnRefs(g, e, p) == Refs(g, p))
    ensures Dir(e) in g && p == g[Dir(e)].addr ==> p in c'.free
    ensures forall i: nat | Pde(e, i) in g && p == g[Pde(e, i)].addr :: p in c'.free
  {
    hide Match;
    RefsSplit(g, e, p);
    assert OwnRefs(g, e, p) <= Refs(g, p);
    if Dir(e) in g && p == g[Dir(e)].addr {
      OnlyOwner(g, b, Dir(e), e);
    }
    forall i: nat | Pde(e, i) in g && p == g[Pde(e, i)].addr ensures p in c'.free {
      OnlyOwner(g, b, Pde(e, i), e);
    }
    if |Refs(WithoutEnv(g, e), p)| == 0 {
      assert Refs(WithoutEnv(g, e), p) == {};
    }
  }

  lemma OnlyOwner(g: Graph, b: Boot, s: Slot, e: nat)
    requires GraphOk(g, b) && s in g && !s.Pte? && Owned(s, e)
    ensures Refs(g, g[s].addr) == {s} == OwnRefs(g, e, g[s].addr)
    ensures g[s].addr !in b.pinned
  {
  }

  lemma {:induction false} ChainDistinct(pages: seq<PageInfo>, head: Option<nat>, free: seq<nat>)
    requires Chain(pages, head, free)
    ensures Distinct(free)
    decreases free
  {
    if free != [] {
      ChainDistinct(pages, pages[free[0]].link, free[1..]);
      forall k, l | 0 <= k < l < |free| ensures free[k] != free[l] {
        if k == 0 {
          assert free[l] == free[1..][l - 1];
        } else {
          assert free[k] == free[1..][k - 1] && free[l] == free[1..][l - 1];
        }
      }
    }
  }

  /** Two chains through the same pages in the same order have the same links. */
  lemma {:induction false} ChainLinks(pages: seq<PageInfo>, pages': seq<PageInfo>, head: Option<nat>, free: seq<nat>)
    requires Chain(pages, head, free) && Chain(pages', head, free) && |pages| == |pages'|
    ensures forall p | 0 <= p < |pages| && p in free :: pages[p].link == pages'[p].link
    decreases free
  {
    if free != [] {
      var next := free[1..];
      assert pages[free[0]].link == (if next == [] then None else Some(next[0])) == pages'[free[0]].link;
      ChainLinks(pages, pages', pages[free[0]].link, next);
      assert free == [free[0]] + next;
    }
  }

  /** The same references give the same counts, and then the same pages are free. */
  lemma SameGraphSameCounts(c: Counts, m: seq<Frame>, c': Counts, m': seq<Frame>, g: Graph, b: Boot)
    requires Inv(c, g, m, b, NOTHING) && Inv(c', g, m', b, NOTHING)
    ensures |c.pages| == |c'.pages| == b.npages
    ensures forall p | 0 <= p < b.npages :: c.pages[p].ref == c'.pages[p].ref
    ensures forall p :: p in c.free <==> p in c'.free
  {
    ChainInRange(c.pages, c.head, c.free);
    ChainInRange(c'.pages, c'.head, c'.free);
  }

  ghost predicate Distinct(xs: seq<nat>) {
    forall k, l | 0 <= k < l < |xs| :: xs[k] != xs[l]
  }

  lemma PartsDistinct(xs: seq<nat>, ys: seq<nat>)
    requires Distinct(xs + ys)
    ensures Distinct(xs) && Distinct(ys)
    ensures forall p | p in xs :: p !in ys
  {
    forall i, j | 0 <= i < |xs| && 0 <= j < |ys| ensures xs[i] != ys[j] {
      assert (xs + ys)[i] == xs[i] && (xs + ys)[|xs| + j] == ys[j];
    }
    forall i, j | 0 <= i < j < |xs| ensures xs[i] != xs[j] {
      assert (xs + ys)[i] == xs[i] && (xs + ys)[j] == xs[j];
    }
    forall i, j | 0 <= i < j < |ys| ensures ys[i] != ys[j] {
      assert (xs + ys)[|xs| + i] == ys[i] && (xs + ys)[|xs| + j] == ys[j];
    }
  }

  lemma AllEqual(xs: seq<nat>, t: nat)
    requires |xs| > 1 && forall k | 0 <= k < |xs| :: xs[k] == t
    ensures !Distinct(xs)
  {
    assert xs[0] == xs[1];
  }

  /** Of two lists of distinct pages with the same elements, [d] + rest + tail and [d, t] + tail, rest must be [t]. */
  lemma MiddleForced(d: nat, t: nat, rest: seq<nat>, tail: seq<nat>)
    requires Distinct([d] + rest + tail) && Distinct([d, t] + tail)
    requires forall p :: p in [d] + rest + tail <==> p in [d, t] + tail
    ensures rest == [t]
  {
    PartsDistinct([d] + rest, tail);
    PartsDistinct([d], rest);
    PartsDistinct([d, t], tail);
    PartsDistinct([d], [t]) by { assert [d] + [t] == [d, t]; }
    forall k | 0 <= k < |rest| ensures rest[k] == t {
      assert rest[k] in [d] + rest;
      assert rest[k] in [d, t] + tail;
    }
    assert t in [d, t] + tail;
    assert t in rest;
    if |rest| > 1 {
      AllEqual(rest, t);
    }
  }

  lemma OrderForced(xs: seq<nat>, ys: seq<nat>)
    requires |ys| >= 2 && xs != [] && xs[0] == ys[0] && Extends(xs[1..], ys[2..])
    requires Distinct(xs) && Distinct(ys)
    requires forall p :: p in xs <==> p in ys
    ensures xs == ys
  {
    var tail := ys[2..];
    var n := |xs| - |tail|;
    var rest := xs[1..n];
    assert xs == [xs[0]] + rest + tail;
    assert ys == [ys[0], ys[1]] + tail;
    MiddleForced(ys[0], ys[1], rest, tail);
  }

  lemma SameCounts(c: Counts, m: seq<Frame>, c': Counts, m': seq<Frame>, g: Graph, b: Boot)
    requires Inv(c, g, m, b, NOTHING) && Inv(c', g, m', b, NOTHING)
    requires |c.free| >= 2 && c'.free != [] && c'.free[0] == c.free[0] && Extends(c'.free[1..], c.free[2..])
    ensures c' == c
  {
    hide Match, GraphOk;
    SameGraphSameCounts(c, m, c', m', g, b);
    ChainDistinct(c.pages, c.head, c.free);
    ChainDistinct(c'.pages, c'.head, c'.free);
    OrderForced(c'.free, c.free);
    ChainLinks(c.pages, c'.pages, c.head, c.free);
    forall p | 0 <= p < b.npages ensures c.pages[p] == c'.pages[p] {
    }
  }

  lemma AddThenRemoveEnv(g: Graph, e: nat, d: nat, t: nat)
    requires forall s | s in g :: !Owned(s, e)
    ensures WithoutEnv(WithEnv(g, e, d, t), e) == g
  {
  }

  /** env_alloc followed directly by env_free restores page counts, links and both free lists, in the same order. */
  method AllocThenFree(k: Kernel, c: nat, parent: int) returns (r: Outcome)
    requires k.PageInv(NOTHING) && k.EnvsInv() && c < |k.cpus|
    requires ScreenHasRoom(k)
    requires forall c' | 0 <= c' < |k.cpus| :: k.cpus[c'].cr3 !in k.free
    modifies k
    ensures !r.Panicked? ==>
      && k.C() == old(k.C()) && k.g == old(k.g)
      && k.envFree == old(k.envFree) && k.envFreeList == old(k.envFreeList)
      && k.PageInv(NOTHING) && k.EnvsInv()
  {
    hide Inv, EnvInv, WithEnv, CountsWithEnv, WithoutEnv, Extends, SameData;
    ghost var c0, g0, m0, list0 := k.C(), k.g, k.mem, k.envFree;
    EnvSizes(k.envs, k.envFreeList, k.envFree, k.allocs, k.g);
    var e;
    r, e := EnvAlloc(k, parent);
    if !r.Done? {
      return;
    }
    NothingOwned(c0, g0, m0, k.boot, e);
    AddThenRemoveEnv(g0, e, c0.free[0], c0.free[1]);
    EnvFree(k, c, e);
    assert list0 == [e] + list0[1..];
    EnvSizes(k.envs, k.envFreeList, k.envFree, k.allocs, k.g);
    FreeAfterAlloc(c0, g0, m0, k.boot);
    SameCounts(c0, m0, k.C(), k.mem, g0, k.boot);
  }

  /** Allocating environments until env_alloc refuses: unless the slots run out first, it ends in a panic exactly when
      the number of free pages was odd, although the comment above env_alloc promises -E_NO_MEM. */
  method AllocUntilRefused(k: Kernel, parent: int) returns (r: Outcome)
    requires k.PageInv(NOTHING) && k.EnvsInv()
    requires VGA_PAGE < |k.pages| && k.pages[VGA_PAGE].ref + |k.envFree| < REF_LIMIT
    modifies k
    ensures r == if |old(k.envFree)| <= |old(k.free)| / 2 then Failed(E_NO_FREE_ENV)
                 else if |old(k.free)| % 2 == 1 then Panicked
                 else Failed(E_NO_MEM)
  {
    hide Inv, EnvInv, WithEnv, CountsWithEnv;
    r := Done;
    while r.Done?
      invariant r.Done? ==> k.PageInv(NOTHING) && k.EnvsInv()
      invariant r.Done? ==> VGA_PAGE < |k.pages| && k.pages[VGA_PAGE].ref + |k.envFree| < REF_LIMIT
      invariant r.Done? ==> |k.envFree| <= |old(k.envFree)|
      invariant r.Done? ==> |k.free| == |old(k.free)| - 2 * (|old(k.envFree)| - |k.envFree|)
      invariant !r.Done? ==>
        r == if |old(k.envFree)| <= |old(k.free)| / 2 then Failed(E_NO_FREE_ENV)
             else if |old(k.free)| % 2 == 1 then Panicked
             else Failed(E_NO_MEM)
      decreases if r.Done? then |k.envFree| + 1 else 0
    {
      ghost var c, envFree := k.C(), k.envFree;
      if |k.free| >= 2 {
        FreeAfterAlloc(c, k.g, k.mem, k.boot);
        ScreenOnceMore(c, k.g, k.mem, k.boot);
      }
      r := TryAlloc(k, parent);
    }
  }

  /** env_alloc where the screen can be counted once more if a slot is free. */
  method TryAlloc(k: Kernel, parent: int) returns (r: Outcome)
    requires k.PageInv(NOTHING) && k.EnvsInv()
    requires VGA_PAGE < |k.pages| && k.pages[VGA_PAGE].ref + |k.envFree| < REF_LIMIT
    modifies k
    ensures r == AllocOutcome(|old(k.envFree)|, |old(k.free)|)
    ensures r.Done? ==> k.PageInv(NOTHING) && k.EnvsInv() && k.envFree == old(k.envFree)[1..] && |old(k.free)| >= 2
    ensures r.Done? ==> old(k.free)[0] < |old(k.pages)| && old(k.free)[1] < |old(k.pages)| && VGA_PAGE < |old(k.pages)|
    ensures r.Done? ==> k.C() == CountsWithEnv(old(k.C()))
  {
    hide Inv, EnvInv, WithEnv, CountsWithEnv;
    EnvSizes(k.envs, k.envFreeList, k.envFree, k.allocs, k.g);
    if k.envFreeList == None {
      return Failed(E_NO_FREE_ENV);
    }
    if |k.free| >= 2 {
      FreeAfterAlloc(k.C(), k.g, k.mem, k.boot);
    }
    var e;
    r, e := EnvAlloc(k, parent);
  }

  lemma ScreenOnceMore(c: Counts, g: Graph, m: seq<Frame>, b: Boot)
    requires Inv(c, g, m, b, NOTHING) && |c.free| >= 2
    ensures c.free[0] < |c.pages| && c.free[1] < |c.pages| && VGA_PAGE < |c.pages|
    ensures CountsWithEnv(c).pages[VGA_PAGE].ref <= c.pages[VGA_PAGE].ref + 1
    ensures |CountsWithEnv(c).pages| == |c.pages|
  {
    hide Inv;
    Sizes(c, g, m, b, NOTHING);
    ScreenIsData(c, g, m, b, NOTHING);
    assert c.free[0] in c.free && c.free[1] in c.free;
  }

  lemma FreeAfterAlloc(c: Counts, g: Graph, m: seq<Frame>, b: Boot)
    requires Inv(c, g, m, b, NOTHING) && |c.free| >= 2
    ensures c.free[0] < |c.pages| && c.free[1] < |c.pages| && VGA_PAGE < |c.pages|
    ensures CountsWithEnv(c).free == c.free[2..]
  {
    Sizes(c, g, m, b, NOTHING);
    assert c.free[0] in c.free && c.free[1] in c.free;
  }

  lemma NothingOwned(c: Counts, g: Graph, m: seq<Frame>, b: Boot, e: nat)
    requires Inv(c, g, m, b, NOTHING) && Dir(e) !in g
    ensures forall s | s in g :: !Owned(s, e)
  {
    NoDirNoEntries(c, g, m, b, NOTHING, e);
  }
}

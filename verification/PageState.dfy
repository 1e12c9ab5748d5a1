/** The invariant of physical pages: reference counts, the free list and the reference graph agree. */
module PageState {
  import opened Layout
  import opened Graph

  /** struct PageInfo: the link of the free list and a 16-bit reference count. */
  datatype PageInfo = PageInfo(link: Option<nat>, ref: nat)

  const REF_LIMIT := 65536

  /** What boot fixes: the size of memory, the page of kern_pgdir, and the pages page_init counts once forever. */
  datatype Boot = Boot(npages: nat, kern: nat, pinned: set<nat>)

  ghost predicate BootOk(b: Boot) {
    && b.npages <= 0x100000
    && 0 < b.kern < b.npages && b.kern in b.pinned
    && VGA_PAGE < b.npages && VGA_PAGE in b.pinned && VGA_PAGE != b.kern
    && 0 !in b.pinned
  }

  /** pages[], page_free_list, and the list the links spell out. */
  datatype Counts = Counts(pages: seq<PageInfo>, head: Option<nat>, free: seq<nat>)

  /** Pages the running kernel code holds: `taken` ones came from page_alloc and have count 0, `ahead` ones have been
      counted once for a reference that is not stored yet. */
  datatype Held = Held(taken: set<nat>, ahead: set<nat>)

  const NOTHING := Held({}, {})

  /** Holding one page, and holding it no more. */
  lemma HeldThenNothing(p: nat)
    ensures NOTHING.(taken := {} + {p}) == Held({p}, {})
    ensures Held({p}, {}).(taken := {p} - {p}) == NOTHING
    ensures NOTHING.(taken := {} - {p}) == NOTHING
  {
  }

  /** The links from the head run through `free` in order, never meeting a page twice, and end there. */
  ghost predicate Chain(pages: seq<PageInfo>, head: Option<nat>, free: seq<nat>)
    decreases free
  {
    if free == [] then
      head == None
    else
      && head == Some(free[0]) && free[0] < |pages| && free[0] !in free[1..]
      && Chain(pages, pages[free[0]].link, free[1..])
  }

  /** The chain depends only on the links of its own pages. */
  lemma {:induction false} ChainFrame(pages: seq<PageInfo>, pages': seq<PageInfo>, head: Option<nat>, free: seq<nat>)
    requires Chain(pages, head, free) && |pages'| == |pages|
    requires forall p | 0 <= p < |pages| && p in free :: pages'[p].link == pages[p].link
    ensures Chain(pages', head, free)
    decreases free
  {
    if free != [] {
      ChainFrame(pages, pages', pages[free[0]].link, free[1..]);
    }
  }

  lemma {:induction false} ChainInRange(pages: seq<PageInfo>, head: Option<nat>, free: seq<nat>)
    requires Chain(pages, head, free)
    ensures forall p | p in free :: p < |pages|
    decreases free
  {
    if free != [] {
      ChainInRange(pages, pages[free[0]].link, free[1..]);
      assert free == [free[0]] + free[1..];
    }
  }

  ghost function Pin(b: Boot, p: nat): nat { if p in b.pinned then 1 else 0 }

  /** Each count is the boot pin plus the number of references plus what running code has counted ahead. */
  ghost predicate RefsCounted(c: Counts, g: Graph, b: Boot, h: Held)
    requires |c.pages| == b.npages
  {
    forall p | 0 <= p < b.npages ::
      c.pages[p].ref == Pin(b, p) + |Refs(g, p)| + (if p in h.ahead then 1 else 0) < REF_LIMIT
  }

  /** The free list is exactly the unpinned pages other than page 0 with count 0 that no code holds. */
  ghost predicate FreeExact(c: Counts, b: Boot, h: Held)
    requires |c.pages| == b.npages
  {
    forall p | 0 <= p < b.npages ::
      && (p in c.free <==> p != 0 && p !in b.pinned && c.pages[p].ref == 0 && p !in h.taken)
      && (p !in c.free ==> c.pages[p].link == None)
  }

  ghost predicate HeldOk(b: Boot, h: Held) {
    && (forall p | p in h.taken :: 0 < p < b.npages && p !in b.pinned && p !in h.ahead)
    && (forall p | p in h.ahead :: 0 < p < b.npages)
  }

  ghost predicate CountInv(c: Counts, g: Graph, b: Boot, h: Held) {
    && |c.pages| == b.npages
    && Chain(c.pages, c.head, c.free)
    && HeldOk(b, h)
    && RefsCounted(c, g, b, h)
    && FreeExact(c, b, h)
    && (forall p | p in h.taken :: c.pages[p].ref == 0)
  }

  /** page_alloc takes the first page of the list. */
  function Popped(c: Counts): Counts
    requires c.free != [] && c.free[0] < |c.pages|
  {
    var p := c.free[0];
    Counts(c.pages[p := c.pages[p].(link := None)], c.pages[p].link, c.free[1..])
  }

  /** page_free puts a page in front. */
  function Pushed(c: Counts, p: nat): Counts
    requires p < |c.pages|
  {
    Counts(c.pages[p := c.pages[p].(link := c.head)], Some(p), [p] + c.free)
  }

  /** `pp_ref++` on sixteen bits. */
  function Increment(ref: nat): nat { (ref + 1) % REF_LIMIT }

  function Incremented(c: Counts, p: nat): Counts
    requires p < |c.pages|
  {
    c.(pages := c.pages[p := c.pages[p].(ref := Increment(c.pages[p].ref))])
  }

  /** `--pp_ref` on sixteen bits. */
  function Decrement(ref: nat): nat { if ref == 0 then REF_LIMIT - 1 else ref - 1 }

  /** page_decref: count down, and free at zero. */
  function Decremented(c: Counts, p: nat): Counts
    requires p < |c.pages|
  {
    var d := c.(pages := c.pages[p := c.pages[p].(ref := Decrement(c.pages[p].ref))]);
    if d.pages[p].ref == 0 then Pushed(d, p) else d
  }

  /** Counting the last reference down puts the page in front of the free list; any other count leaves the list alone.
      */
  lemma DecrementedFree(c: Counts, p: nat)
    requires p < |c.pages| && c.pages[p].ref > 0
    ensures Decremented(c, p).free == if c.pages[p].ref == 1 then [p] + c.free else c.free
  {
  }

  lemma PushKeepsChain(c: Counts, p: nat)
    requires Chain(c.pages, c.head, c.free) && p < |c.pages| && p !in c.free
    ensures var d := Pushed(c, p); Chain(d.pages, d.head, d.free)
  {
    ChainFrame(c.pages, Pushed(c, p).pages, c.head, c.free);
  }

  lemma PopKeeps(c: Counts, g: Graph, b: Boot, h: Held)
    requires CountInv(c, g, b, h) && c.free != []
    ensures var p := c.free[0];
      && 0 < p < b.npages && p !in b.pinned && p !in h.taken && p !in h.ahead && c.pages[p].ref == 0
      && (forall s | s in g :: g[s].addr != p)
      && CountInv(Popped(c), g, b, h.(taken := h.taken + {p}))
  {
    var p := c.free[0];
    var d := Popped(c);
    assert p in c.free;
    NoRefs(g, p);
    ChainFrame(c.pages, d.pages, c.pages[p].link, c.free[1..]);
    assert c.free == [p] + d.free;
  }

  lemma IncrementKeeps(c: Counts, g: Graph, b: Boot, h: Held, p: nat)
    requires CountInv(c, g, b, h)
    requires 0 < p < b.npages && p !in c.free && p !in h.ahead
    requires c.pages[p].ref < REF_LIMIT - 1
    ensures CountInv(Incremented(c, p), g, b, Held(h.taken - {p}, h.ahead + {p}))
  {
    ChainFrame(c.pages, Incremented(c, p).pages, c.head, c.free);
  }

  /** Storing a reference counted ahead settles it. */
  lemma LinkKeeps(c: Counts, g: Graph, b: Boot, h: Held, s: Slot, w: Word)
    requires CountInv(c, g, b, h)
    requires s !in g && w.addr in h.ahead
    ensures CountInv(c, g[s := w], b, h.(ahead := h.ahead - {w.addr}))
  {
    forall p | 0 <= p < b.npages
      ensures |Refs(g[s := w], p)| == |Refs(g, p)| + if p == w.addr then 1 else 0
    {
      RefsAdd(g, s, w, p);
    }
  }

  /** Dropping a stored reference and counting it down keeps the counts, and frees the page with its last one. */
  lemma UnlinkKeeps(c: Counts, g: Graph, b: Boot, h: Held, s: Slot)
    requires CountInv(c, g, b, h)
    requires s in g && 0 < g[s].addr < b.npages
    ensures c.pages[g[s].addr].ref > 0
    ensures CountInv(Decremented(c, g[s].addr), g - {s}, b, h)
  {
    var q := g[s].addr;
    forall p | 0 <= p < b.npages
      ensures |Refs(g, p)| == |Refs(g - {s}, p)| + if p == q then 1 else 0
    {
      RefsRemove(g, s, p);
    }
    var d := c.(pages := c.pages[q := c.pages[q].(ref := c.pages[q].ref - 1)]);
    assert q !in c.free;
    ChainFrame(c.pages, d.pages, c.head, c.free);
    if d.pages[q].ref == 0 {
      PushKeepsChain(d, q);
      assert forall r :: r in Pushed(d, q).free <==> r == q || r in c.free;
    }
  }

  /** Dropping a reference to a page that stays counted leaves the page counted ahead. */
  lemma UnlinkAhead(c: Counts, g: Graph, b: Boot, h: Held, s: Slot)
    requires CountInv(c, g, b, h) && s in g && 0 < g[s].addr < b.npages && g[s].addr !in h.ahead
    requires c.pages[g[s].addr].ref > 0
    ensures CountInv(c, g - {s}, b, Held(h.taken, h.ahead + {g[s].addr}))
  {
    forall p | 0 <= p < b.npages
      ensures |Refs(g, p)| == |Refs(g - {s}, p)| + if p == g[s].addr then 1 else 0
    {
      RefsRemove(g, s, p);
    }
  }

  /** Counting up from the last value and down again changes nothing. */
  lemma OverAndBack(c: Counts, p: nat)
    requires p < |c.pages| && c.pages[p].ref == REF_LIMIT - 1
    ensures Incremented(c, p).pages[p].ref == 0 && Decremented(Incremented(c, p), p) == c
  {
    assert c.pages[p := c.pages[p].(ref := 0)][p := c.pages[p]] == c.pages;
  }

  /** Giving an unused page back. */
  lemma GiveBackKeeps(c: Counts, g: Graph, b: Boot, h: Held, p: nat)
    requires CountInv(c, g, b, h) && p in h.taken
    ensures CountInv(Pushed(c, p), g, b, h.(taken := h.taken - {p}))
  {
    PushKeepsChain(c, p);
    assert forall r :: r in Pushed(c, p).free <==> r == p || r in c.free;
  }

  /** Sixteen bits are enough exactly below the last value: counting a page up keeps the invariant, with one reference
      more to come, if and only if its count is not 65535 yet. */
  lemma IncrementKeepsExactly(c: Counts, g: Graph, b: Boot, h: Held, p: nat)
    requires CountInv(c, g, b, h)
    requires 0 < p < b.npages && p !in c.free && p !in h.ahead
    ensures CountInv(Incremented(c, p), g, b, Held(h.taken - {p}, h.ahead + {p})) <==> c.pages[p].ref != 65535
  {
    if c.pages[p].ref != 65535 {
      IncrementKeeps(c, g, b, h, p);
    }
  }
}

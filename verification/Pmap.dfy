/** kern/pmap.c: the page allocator and the two-level page tables, working on the kernel's state in place. */
module Pmap {
  import opened Layout
  import opened Graph
  import opened PageState
  import opened Tables
  import opened Steps
  import opened EnvState
  import opened Sched
  import opened Tlb

  /** Where a CPU is: running user code, waiting for the kernel lock, inside the kernel, or halted. */
  datatype Place = InUser | Waiting | InKernel | InHalt

  /** struct CpuInfo, with the CPU's cr3 and place. */
  datatype Cpu = Cpu(place: Place, env: Option<nat>, cr3: nat)

  /** A pte_t pointer: a word of a physical page. */
  datatype Loc = Loc(frame: nat, index: nat)

  /** The TLB of a CPU agrees with the tables in its cr3, which is kern_pgdir or the directory of its environment. */
  ghost predicate Coherent(tlbs: map<nat, Tlb>, cpu: nat, cpus: seq<Cpu>, envs: seq<Env>, g: Graph, b: Boot,
                           m: seq<Frame>) {
    cpu < |cpus| ==>
      var v := cpus[cpu];
      && cpu in tlbs && Root(g, b, v.cr3) && Agrees(tlbs[cpu], m, v.cr3)
      && (v.env.Some? ==> v.env.value < |envs| && (v.cr3 == b.kern || envs[v.env.value].pgdir == Some(v.cr3)))
  }

  class Kernel {
    const boot: Boot
    var pages: seq<PageInfo>
    var pageFreeList: Option<nat>
    var mem: seq<Frame>
    var envs: seq<Env>
    var envFreeList: Option<nat>
    var cpus: seq<Cpu>
    /** The CPU holding the big kernel lock. */
    var lock: Option<nat>

    /** The pages on page_free_list, in order. */
    ghost var free: seq<nat>
    /** The references found by walking memory from every environment and from kern_pgdir. */
    ghost var g: Graph
    /** The environments on env_free_list, in order. */
    ghost var envFree: seq<nat>
    /** How often each slot of envs[] has been allocated. */
    ghost var allocs: seq<nat>
    /** What has happened to the environment in each slot as a receiver of messages. */
    ghost var mail: seq<History>
    /** The successful sends, in order. */
    ghost var sent: seq<Delivery>
    /** What has happened to each CPU in the scheduler. */
    ghost var log: seq<seq<Turn>>

    /** The TLB of each CPU, which the hardware fills behind the kernel's back. */
    ghost var tlbs: map<nat, Tlb>

    /** The machine when mem_init has cleared pages[] and envs[] and before page_init: memory `m`, the boot CPU inside
        the kernel, the others waiting to be let in by mp_main. */
    constructor (b: Boot, m: seq<Frame>, ncpu: nat)
      ensures boot == b && mem == m && g == map[] && lock == Some(0)
      ensures pages == seq(b.npages, _ => PageInfo(None, 0)) && pageFreeList == None && free == []
      ensures envs == seq(NENV, _ => NO_ENV) && envFreeList == None && envFree == []
      ensures allocs == seq(NENV, _ => 0) && mail == seq(NENV, _ => [])
      ensures cpus == seq(ncpu, c => Cpu(if c == 0 then InKernel else Waiting, None, b.kern))
      ensures tlbs == EmptyTlbs(ncpu) && sent == [] && log == seq(ncpu, _ => [])
    {
      boot, mem, g, lock := b, m, map[], Some(0);
      pages, pageFreeList, free := seq(b.npages, _ => PageInfo(None, 0)), None, [];
      envs, envFreeList, envFree := seq(NENV, _ => NO_ENV), None, [];
      allocs, mail := seq(NENV, _ => 0), seq(NENV, _ => []);
      cpus := seq(ncpu, c => Cpu(if c == 0 then InKernel else Waiting, None, b.kern));
      tlbs, sent, log := EmptyTlbs(ncpu), [], seq(ncpu, _ => []);
    }

    /** The CPU that runs the kernel is the one holding the kernel lock; the only one there is, on a uniprocessor. */
    function ThisCpu(): nat
      reads this`lock
    {
      if lock.Some? then lock.value else 0
    }

    /** The TLB of the CPU that runs the kernel agrees with the tables. */
    ghost predicate TlbOk()
      reads this`tlbs, this`lock, this`cpus, this`envs, this`g, this`mem
    {
      Coherent(tlbs, ThisCpu(), cpus, envs, g, boot, mem)
    }

    ghost function C(): Counts
      reads this`pages, this`pageFreeList, this`free
    {
      Counts(pages, pageFreeList, free)
    }

    /** Counts, free list and tables agree, up to what running code holds. */
    ghost predicate PageInv(h: Held)
      reads this`pages, this`pageFreeList, this`free, this`mem, this`g
    {
      Inv(C(), g, mem, boot, h)
    }

    /** envs[], env_free_list and the graph agree. */
    ghost predicate EnvsInv()
      reads this`envs, this`envFreeList, this`envFree, this`allocs, this`g
    {
      EnvInv(envs, envFreeList, envFree, allocs, g)
    }

    /** `d` is the directory of environment `e`. */
    ghost predicate IsDir(e: nat, d: nat)
      reads this`g
    {
      Dir(e) in g && g[Dir(e)].addr == d
    }

    function CurEnv(): Option<nat>
      reads this`lock, this`cpus
    {
      if ThisCpu() < |cpus| then cpus[ThisCpu()].env else None
    }

    /** Whatever the hardware caches or forgets while the kernel is between two instructions. */
    ghost method HardwareFills()
      modifies this`tlbs
      ensures AllFilled(old(tlbs), tlbs, mem, cpus)
      ensures old(TlbOk()) ==> TlbOk()
    {
      assert AllFilled(tlbs, tlbs, mem, cpus);
      var t: map<nat, Tlb> :| AllFilled(tlbs, t, mem, cpus);
      FillsKeepCoherence(tlbs, t, ThisCpu(), cpus, envs, g, boot, mem);
      tlbs := t;
    }

    /** The hardware of CPU `c` caches the translation of page `v`, if a walk of memory from cr3 finds one. */
    ghost method Cache(c: nat, v: Page)
      modifies this`tlbs
      ensures tlbs == Cached(old(tlbs), c, v, mem, cpus)
      ensures old(TlbOk()) ==> TlbOk()
    {
      FillsKeepCoherence(tlbs, Cached(tlbs, c, v, mem, cpus), ThisCpu(), cpus, envs, g, boot, mem);
      tlbs := Cached(tlbs, c, v, mem, cpus);
    }

    /** The hardware of CPU `c` forgets the translation of page `v`. */
    ghost method Evict(c: nat, v: Page)
      modifies this`tlbs
      ensures tlbs == Flushed(old(tlbs), c, v)
      ensures old(TlbOk()) ==> TlbOk()
    {
      FillsKeepCoherence(tlbs, Flushed(tlbs, c, v), ThisCpu(), cpus, envs, g, boot, mem);
      tlbs := Flushed(tlbs, c, v);
    }

    /** invlpg on the CPU that runs this code. */
    ghost method Invlpg(va: nat)
      requires va < ADDRESS_LIMIT
      modifies this`tlbs
      ensures tlbs == Flushed(old(tlbs), ThisCpu(), Page(PDX(va), PTX(va)))
    {
      tlbs := Flushed(tlbs, ThisCpu(), Page(PDX(va), PTX(va)));
    }

    /** tlb_invalidate: only if the tables edited may be those in cr3. */
    method TlbInvalidate(d: nat, va: nat)
      requires va < ADDRESS_LIMIT
      modifies this`tlbs
      ensures tlbs ==
        if CurEnv() == None || PgdirOf(envs, CurEnv()) == Some(d) then
          Flushed(old(tlbs), ThisCpu(), Page(PDX(va), PTX(va)))
        else old(tlbs)
    {
      var curenv := CurEnv();
      if curenv == None || PgdirOf(envs, curenv) == Some(d) {
        Invlpg(va);
      }
    }

    /** lcr3 on CPU `c`: the whole TLB is flushed. */
    method Lcr3(c: nat, d: nat)
      requires c < |cpus|
      modifies this`cpus, this`tlbs
      ensures cpus == old(cpus)[c := old(cpus)[c].(cr3 := d)]
      ensures tlbs == Emptied(old(tlbs), c)
      ensures d == boot.kern < |mem| && old(TlbOk()) ==> TlbOk()
    {
      cpus := cpus[c := cpus[c].(cr3 := d)];
      tlbs := Emptied(tlbs, c);
    }

    method PageAlloc(zero: bool, ghost h: Held) returns (r: Option<nat>)
      requires PageInv(h)
      modifies this`pages, this`pageFreeList, this`mem, this`free
      ensures old(free) == [] ==> r == None && C() == old(C()) && mem == old(mem) && PageInv(h)
      ensures old(free) != [] ==>
        && r == Some(old(free)[0]) && r.value < boot.npages
        && C() == Popped(old(C()))
        && mem == (if zero then old(mem)[r.value := ZeroFrame()] else old(mem))
        && PageInv(h.(taken := h.taken + {r.value}))
        && r.value !in h.taken
        && (forall s | s in g :: g[s].addr != r.value)
      ensures old(TlbOk()) ==> TlbOk()
    {
      hide Inv, Coherent;
      Sizes(C(), g, mem, boot, h);
      if pageFreeList == None {
        return None;
      }
      StepPop(C(), g, mem, boot, h);
      var pp := pageFreeList.value;
      pageFreeList := pages[pp].link;
      pages := pages[pp := pages[pp].(link := None)];
      free := free[1..];
      if zero {
        StepData(C(), g, mem, boot, h.(taken := h.taken + {pp}), pp, ZeroFrame());
        DataKeepsCoherence(tlbs, ThisCpu(), cpus, envs, C(), g, boot, mem, h.(taken := h.taken + {pp}), pp,
                           ZeroFrame());
        mem := mem[pp := ZeroFrame()];
      }
      return Some(pp);
    }

    /** The panics of page_free are its preconditions. */
    method PageFree(pp: nat)
      requires pp < |pages| && pages[pp].ref == 0 && pages[pp].link == None
      modifies this`pages, this`pageFreeList, this`free
      ensures C() == Pushed(old(C()), pp)
    {
      pages := pages[pp := pages[pp].(link := pageFreeList)];
      pageFreeList := Some(pp);
      free := [pp] + free;
    }

    method PageDecref(pp: nat)
      requires pp < |pages| && pages[pp].link == None
      modifies this`pages, this`pageFreeList, this`free
      ensures C() == Decremented(old(C()), pp)
    {
      pages := pages[pp := pages[pp].(ref := Decrement(pages[pp].ref))];
      if pages[pp].ref == 0 {
        PageFree(pp);
      }
    }

    /** pgdir_walk with create == false. */
    method PgdirWalk(d: nat, va: nat) returns (r: Option<Loc>)
      requires d < |mem| && va < ADDRESS_LIMIT
      ensures r == if mem[d][PDX(va)].flags.p then Some(Loc(mem[d][PDX(va)].addr, PTX(va))) else None
    {
      var pde := mem[d][PDX(va)];
      if pde.flags.p {
        return Some(Loc(pde.addr, PTX(va)));
      }
      return None;
    }

    /** `s` is the slot of the directory entry for `va` in directory `d`: an environment's user half, or kern_pgdir's
        kernel half while no environment exists, where no 4 MB page is mapped. */
    ghost predicate EntrySlot(s: Slot, d: nat, va: nat)
      requires va < ADDRESS_LIMIT
      reads this`g, this`mem
    {
      || (s.Pde? && IsDir(s.e, d) && s.i == PDX(va) < USER_PDES)
      || (s.Kern? && d == boot.kern && s.i == PDX(va) >= USER_PDES && s.i != UVPT_PDX
          && (d < |mem| ==> !mem[d][PDX(va)].flags.ps) && forall e: nat :: Dir(e) !in g)
    }

    /** The graph has the slot of a directory entry exactly when the entry is present, with the same word. */
    lemma DirectoryEntry(s: Slot, d: nat, va: nat, h: Held)
      requires PageInv(h) && va < ADDRESS_LIMIT && EntrySlot(s, d, va)
      ensures d < |mem| == boot.npages
      ensures s in g <==> mem[d][PDX(va)].flags.p
      ensures s in g ==> mem[d][PDX(va)] == g[s]
      ensures d in boot.pinned || exists s' :: s' in g && g[s'].addr == d
    {
      if s.Pde? {
        assert DirectoryOk(g, mem, boot, s.e);
        assert g[Dir(s.e)].addr == d;
      }
    }

    /** pgdir_walk with create == true: a missing table is allocated, cleared, counted and hung in. */
    method PgdirWalkCreate(d: nat, va: nat, ghost s: Slot, ghost h: Held) returns (r: Option<Loc>)
      requires PageInv(h) && va < ADDRESS_LIMIT && EntrySlot(s, d, va)
      modifies this`pages, this`pageFreeList, this`mem, this`free, this`g
      ensures PageInv(h)
      ensures s in old(g) || old(free) == [] ==> C() == old(C()) && mem == old(mem) && g == old(g)
      ensures s in old(g) ==> r == Some(Loc(g[s].addr, PTX(va)))
      ensures s !in old(g) && old(free) == [] ==> r == None
      ensures s !in old(g) && old(free) != [] ==>
        var t := old(free)[0];
        && r == Some(Loc(t, PTX(va)))
        && t < boot.npages && t !in h.taken && d < boot.npages
        && (forall s' | s' in old(g) :: old(g)[s'].addr != t)
        && C() == Incremented(Popped(old(C())), t)
        && g == old(g)[s := Word(t, PWU)]
        && mem == old(mem)[t := ZeroFrame()][d := old(mem)[d][PDX(va) := Word(t, PWU)]]
      ensures old(TlbOk()) ==> TlbOk()
    {
      hide Inv, Coherent;
      var i := PDX(va);
      DirectoryEntry(s, d, va, h);
      var pde := mem[d][i];
      if pde.flags.p {
        return Some(Loc(pde.addr, PTX(va)));
      }
      var page := PageAlloc(true, h);
      if page == None {
        return None;
      }
      var t := page.value;
      assert t > 0 && t !in h.ahead && t !in boot.pinned && t != boot.kern && t != d
             && Popped(old(C())).pages[t].ref == 0 by {
        StepPop(old(C()), old(g), old(mem), boot, h);
      }
      ghost var h1 := h.(taken := h.taken + {t});
      assert t !in free by {
        StepPop(old(C()), old(g), old(mem), boot, h);
      }
      StepIncrement(C(), g, mem, boot, h1, t);
      assert h1.taken - {t} == h.taken;
      pages := pages[t := pages[t].(ref := Increment(pages[t].ref))];
      StepHang(C(), g, mem, boot, h, s, d, Word(t, PWU));
      HangingKeepsCoherence(tlbs, ThisCpu(), cpus, envs, C(), g, boot, mem, Held(h.taken, h.ahead + {t}), s, d,
                            Word(t, PWU));
      mem := mem[d := mem[d][i := Word(t, PWU)]];
      g := g[s := Word(t, PWU)];
      return Some(Loc(t, PTX(va)));
    }

    /** page_lookup; `pte` is what it stores through pte_store. */
    method PageLookup(d: nat, va: nat) returns (page: Option<nat>, pte: Option<Loc>)
      requires d < |mem| && va < ADDRESS_LIMIT
      requires mem[d][PDX(va)].flags.p ==>
        var t := mem[d][PDX(va)].addr;
        t < |mem| && (mem[t][PTX(va)].flags.p ==> mem[t][PTX(va)].addr < |pages|)
      ensures pte == if mem[d][PDX(va)].flags.p then Some(Loc(mem[d][PDX(va)].addr, PTX(va))) else None
      ensures page == if pte.Some? && mem[pte.value.frame][PTX(va)].flags.p
                      then Some(mem[pte.value.frame][PTX(va)].addr) else None
    {
      pte := PgdirWalk(d, va);
      if pte == None {
        return None, pte;
      }
      var w := mem[pte.value.frame][pte.value.index];
      if !w.flags.p {
        return None, pte;
      }
      return Some(w.addr), pte;
    }

    /** What a walk of an environment's directory finds is what the graph says, if the graph agrees with memory up to
        the counts `c`. */
    lemma WalkFollows(c: Counts, e: nat, d: nat, va: nat, h: Held)
      requires Inv(c, g, mem, boot, h) && |pages| == |c.pages| && IsDir(e, d) && va < UTOP
      ensures 0 < d < |mem| == |pages| && mem[d][PDX(va)].addr < |mem|
      ensures mem[d][PDX(va)].flags.p <==> Pde(e, PDX(va)) in g
      ensures Pde(e, PDX(va)) in g ==>
        var t := mem[d][PDX(va)].addr;
        && t == g[Pde(e, PDX(va))].addr < |mem|
        && (mem[t][PTX(va)].flags.p <==> Pte(e, PDX(va), PTX(va)) in g)
        && (mem[t][PTX(va)].flags.p ==> mem[t][PTX(va)] == g[Pte(e, PDX(va), PTX(va))]
                                        && mem[t][PTX(va)].addr < |pages|)
        && (!mem[t][PTX(va)].flags.p ==> mem[t][PTX(va)] == ZERO)
      ensures Pte(e, PDX(va), PTX(va)) in g ==> Pde(e, PDX(va)) in g
    {
      assert DirectoryOk(g, mem, boot, e);
      if Pde(e, PDX(va)) in g {
        assert TableMatch(g, mem[g[Pde(e, PDX(va))].addr], e, PDX(va));
      }
    }

    /** What a walk of an environment's directory finds is what the graph says. */
    lemma WalkFollowsGraph(e: nat, d: nat, va: nat, h: Held)
      requires PageInv(h) && IsDir(e, d) && va < UTOP
      ensures 0 < d < |mem| == |pages| && mem[d][PDX(va)].addr < |mem|
      ensures mem[d][PDX(va)].flags.p <==> Pde(e, PDX(va)) in g
      ensures Pde(e, PDX(va)) in g ==>
        var t := mem[d][PDX(va)].addr;
        && t == g[Pde(e, PDX(va))].addr < |mem|
        && (mem[t][PTX(va)].flags.p <==> Pte(e, PDX(va), PTX(va)) in g)
        && (mem[t][PTX(va)].flags.p ==> mem[t][PTX(va)] == g[Pte(e, PDX(va), PTX(va))]
                                        && mem[t][PTX(va)].addr < |pages|)
        && (!mem[t][PTX(va)].flags.p ==> mem[t][PTX(va)] == ZERO)
      ensures Pte(e, PDX(va), PTX(va)) in g ==> Pde(e, PDX(va)) in g
    {
      hide Inv;
      WalkFollows(C(), e, d, va, h);
    }

    /** The word of a directory entry says whether the graph has its table, and which. */
    lemma EntryFollowsGraph(e: nat, d: nat, i: nat, h: Held)
      requires PageInv(h) && IsDir(e, d) && i < USER_PDES
      ensures d < |mem| == boot.npages == |pages|
      ensures mem[d][i].flags.p <==> Pde(e, i) in g
      ensures Pde(e, i) in g ==>
        && mem[d][i] == g[Pde(e, i)] && mem[d][i].addr < |mem|
        && (forall j | 0 <= j < NPTENTRIES :: mem[mem[d][i].addr][j].flags.p <==> Pte(e, i, j) in g)
    {
      assert DirectoryOk(g, mem, boot, e);
      if Pde(e, i) in g {
        assert TableMatch(g, mem[g[Pde(e, i)].addr], e, i);
      }
    }

    /** The end of page_remove: the entry is cleared, then flushed. */
    method ClearEntry(d: nat, va: nat, pte: Loc, ghost s: Slot, ghost c0: Counts, ghost h: Held)
      requires va < UTOP && s.Pte? && s == Pte(s.e, PDX(va), PTX(va)) && Pde(s.e, s.i) in g && IsDir(s.e, d)
      requires Inv(c0, g, mem, boot, h) && pte.frame < |mem| && pte == Loc(g[Pde(s.e, s.i)].addr, s.j)
      modifies this`mem, this`g, this`tlbs
      ensures g == old(g) - {s} && mem == old(mem)[pte.frame := old(mem)[pte.frame][pte.index := ZERO]]
      ensures old(TlbOk()) ==> TlbOk()
    {
      hide Inv, Coherent, AllFilled, Flushed;
      HardwareFills();
      ghost var coherent, tlbs0 := TlbOk(), tlbs;
      mem := mem[pte.frame := mem[pte.frame][pte.index := ZERO]];
      g := g - {s};
      HardwareFills();
      ghost var tlbs1 := tlbs;
      TlbInvalidate(d, va);
      if coherent {
        RemovalKeepsCoherence(tlbs0, tlbs1, ThisCpu(), cpus, envs, c0, old(g), boot, old(mem), h, s, CurEnv());
      }
      HardwareFills();
    }

    /** The counts are `c`, but the page at slot `s` has just been counted from 65535 to 0. */
    ghost predicate CountedOver(c: Counts, s: Slot, h: Held)
      reads this`pages, this`pageFreeList, this`free, this`g
    {
      && s in g && g[s].addr < |c.pages| && c.pages[g[s].addr].ref == REF_LIMIT - 1 && g[s].addr !in h.ahead
      && C() == Incremented(c, g[s].addr)
    }

    /** page_remove. Called from page_insert, for the page it is about to map again, it may find the count at 0. */
    method PageRemove(d: nat, va: nat, ghost e: nat, ghost c: Counts, ghost h: Held)
      requires Inv(c, g, mem, boot, h) && IsDir(e, d) && va < UTOP
      requires C() == c || CountedOver(c, Pte(e, PDX(va), PTX(va)), h)
      modifies this`pages, this`pageFreeList, this`mem, this`free, this`tlbs, this`g
      ensures var s := Pte(e, PDX(va), PTX(va));
        if s in old(g) then
          var t, q := old(g)[Pde(e, PDX(va))].addr, old(g)[s].addr;
          && Pde(e, PDX(va)) in old(g) && t < |old(mem)|
          && g == old(g) - {s}
          && q < |old(pages)| && (old(C()) == c ==> old(pages)[q].ref > 0)
          && C() == Decremented(old(C()), q)
          && mem == old(mem)[t := old(mem)[t][PTX(va) := ZERO]]
          && PageInv(if old(C()) == c then h else Held(h.taken, h.ahead + {q}))
        else
          C() == old(C()) && mem == old(mem) && g == old(g)
      ensures old(C()) == c ==> PageInv(h)
      ensures old(TlbOk()) ==> TlbOk()
    {
      hide Inv, Coherent, Decremented, CountedOver;
      ghost var s, c0 := Pte(e, PDX(va), PTX(va)), C();
      if c0 != c {
        OnlyCounted(c, s, h);
      }
      WalkFollows(c, e, d, va, h);
      var page, pte := PageLookup(d, va);
      if page == None {
        return;
      }
      if c0 == c {
        StepRemove(c, g, mem, boot, h, s);
      } else {
        StepRemoveOver(c, g, mem, boot, h, s);
      }
      PageDecref(page.value);
      ClearEntry(d, va, pte.value, s, c, h);
    }

    lemma OnlyCounted(c: Counts, s: Slot, h: Held)
      requires CountedOver(c, s, h)
      ensures s in g && |pages| == |c.pages| && g[s].addr < |pages| && g[s].addr !in h.ahead
      ensures c.pages[g[s].addr].ref == REF_LIMIT - 1 && pages[g[s].addr].link == c.pages[g[s].addr].link
      ensures C() == Incremented(c, g[s].addr)
    {
    }

    /** `*pte = page2pa(pp) | perm | PTE_P`, for a page counted ahead. */
    method StoreEntry(d: nat, pp: nat, va: nat, perm: Flags, pte: Loc, ghost e: nat, ghost h: Held)
      requires pp !in h.ahead && PageInv(Held(h.taken - {pp}, h.ahead + {pp})) && IsDir(e, d)
      requires va < UTOP && Pde(e, PDX(va)) in g && Pte(e, PDX(va), PTX(va)) !in g
      requires pte == Loc(g[Pde(e, PDX(va))].addr, PTX(va)) && pte.frame < |mem|
      requires 0 < pp < boot.npages && NotTable(g, boot, pp)
      modifies this`mem, this`g
      ensures PageInv(h.(taken := h.taken - {pp}))
      ensures g == old(g)[Pte(e, PDX(va), PTX(va)) := Word(pp, perm.(p := true))]
      ensures mem == old(mem)[pte.frame := old(mem)[pte.frame][pte.index := Word(pp, perm.(p := true))]]
      ensures old(TlbOk()) ==> TlbOk()
    {
      hide Inv, Coherent, NotTable;
      ghost var w, h1 := Word(pp, perm.(p := true)), Held(h.taken - {pp}, h.ahead + {pp});
      WalkFollowsGraph(e, d, va, h1);
      StepStore(C(), g, mem, boot, h, e, PDX(va), PTX(va), w);
      StoringKeepsCoherence(tlbs, ThisCpu(), cpus, envs, C(), g, boot, mem, h1, e, PDX(va), PTX(va), w);
      mem := mem[pte.frame := mem[pte.frame][pte.index := Word(pp, perm.(p := true))]];
      g := g[Pte(e, PDX(va), PTX(va)) := w];
    }

    /** The rest of page_insert, once pgdir_walk has found or made the table: count up, remove what is mapped, store. */
    method PageReplace(d: nat, pp: nat, va: nat, perm: Flags, pte: Loc, ghost e: nat, ghost h: Held)
      requires PageInv(h) && IsDir(e, d) && va < UTOP && Pde(e, PDX(va)) in g
      requires pte == Loc(g[Pde(e, PDX(va))].addr, PTX(va))
      requires 0 < pp < boot.npages && NotTable(g, boot, pp) && pp !in free && pp !in h.ahead
      requires HasRoomAt(C(), g, pp, Pte(e, PDX(va), PTX(va)))
      modifies this`pages, this`pageFreeList, this`mem, this`free, this`tlbs, this`g
      ensures PageInv(h.(taken := h.taken - {pp}))
      ensures g == old(g)[Pte(e, PDX(va), PTX(va)) := Word(pp, perm.(p := true))]
      ensures CountsAfterReplace(old(C()), C(), old(g), pp, Pte(e, PDX(va), PTX(va)))
      ensures pte.frame < |mem| == |old(mem)| && mem == old(mem)[pte.frame := mem[pte.frame]]
      ensures old(TlbOk()) ==> TlbOk()
    {
      hide Inv, Coherent;
      ghost var s, w, c0 := Pte(e, PDX(va), PTX(va)), Word(pp, perm.(p := true)), C();
      ghost var h1 := Held(h.taken - {pp}, h.ahead + {pp});
      Sizes(C(), g, mem, boot, h);
      WalkFollowsGraph(e, d, va, h);
      if pages[pp].ref < REF_LIMIT - 1 {
        StepIncrement(C(), g, mem, boot, h, pp);
      } else {
        NotTaken(C(), g, mem, boot, h, pp);
      }
      pages := pages[pp := pages[pp].(ref := Increment(pages[pp].ref))];
      if mem[pte.frame][pte.index].flags.p {
        PageRemove(d, va, e, if c0.pages[pp].ref < REF_LIMIT - 1 then C() else c0,
                   if c0.pages[pp].ref < REF_LIMIT - 1 then h1 else h);
      }
      RemoveThenStore(old(g), g, s, w);
      WriteTwice(old(mem), mem, pte.frame, mem[pte.frame][pte.index := w]);
      StoreEntry(d, pp, va, perm, pte, e, h);
    }

    /** page_insert. A page already mapped at `va` is removed first; `pp` may be that very page. */
    method PageInsert(d: nat, pp: nat, va: nat, perm: Flags, ghost e: nat, ghost h: Held) returns (rc: int)
      requires PageInv(h) && IsDir(e, d) && va < UTOP
      requires 0 < pp < boot.npages && NotTable(g, boot, pp) && pp !in free && pp !in h.ahead
      requires Pde(e, PDX(va)) in g || free != [] ==> HasRoomAt(C(), g, pp, Pte(e, PDX(va), PTX(va)))
      modifies this`pages, this`pageFreeList, this`mem, this`free, this`tlbs, this`g
      ensures rc == (if Pde(e, PDX(va)) !in old(g) && old(free) == [] then E_NO_MEM else 0)
      ensures rc == E_NO_MEM ==> C() == old(C()) && mem == old(mem) && g == old(g) && PageInv(h)
      ensures rc == 0 ==>
        && PageInv(h.(taken := h.taken - {pp}))
        && g == WithTable(old(g), old(free), e, PDX(va))[Pte(e, PDX(va), PTX(va)) := Word(pp, perm.(p := true))]
        && CountsAfterInsert(old(C()), C(), old(g), pp, e, PDX(va), PTX(va))
        && (forall p | 0 <= p < boot.npages && p != d && p != g[Pde(e, PDX(va))].addr :: mem[p] == old(mem)[p])
      ensures old(TlbOk()) ==> TlbOk()
    {
      hide Inv, Coherent;
      Sizes(C(), g, mem, boot, h);
      var pte := PgdirWalkCreate(d, va, Pde(e, PDX(va)), h);
      if pte == None {
        return E_NO_MEM;
      }
      assert Pte(e, PDX(va), PTX(va)) in g <==> Pte(e, PDX(va), PTX(va)) in old(g);
      PageReplace(d, pp, va, perm, pte.value, e, h);
      return 0;
    }
  }

  function PgdirOf(envs: seq<Env>, e: Option<nat>): Option<nat> {
    if e.Some? && e.value < |envs| then envs[e.value].pgdir else None
  }

  ghost function Flushed(tlbs: map<nat, Tlb>, cpu: nat, v: Page): map<nat, Tlb> {
    if cpu in tlbs then tlbs[cpu := tlbs[cpu] - {v}] else tlbs
  }

  ghost function Cached(tlbs: map<nat, Tlb>, cpu: nat, v: Page, m: seq<Frame>, cpus: seq<Cpu>): map<nat, Tlb> {
    if cpu in tlbs && cpu < |cpus| && cpus[cpu].cr3 < |m| && Walk(m, cpus[cpu].cr3, v).Some? then
      tlbs[cpu := tlbs[cpu][v := Walk(m, cpus[cpu].cr3, v).value]]
    else tlbs
  }

  ghost function EmptyTlbs(ncpu: nat): (r: map<nat, Tlb>)
    ensures forall c | 0 <= c < ncpu :: c in r && r[c] == map[]
  {
    if ncpu == 0 then map[] else EmptyTlbs(ncpu - 1)[ncpu - 1 := map[]]
  }

  ghost function Emptied(tlbs: map<nat, Tlb>, cpu: nat): map<nat, Tlb> {
    if cpu in tlbs then tlbs[cpu := map[]] else tlbs
  }

  /** Changes to envs[] that leave env_pgdir alone. */
  lemma EnvsKeepCoherence(tlbs: map<nat, Tlb>, cpu: nat, cpus: seq<Cpu>, envs: seq<Env>, envs': seq<Env>, g: Graph,
                          b: Boot, m: seq<Frame>)
    requires |envs| == |envs'| && forall e | 0 <= e < |envs| :: envs'[e].pgdir == envs[e].pgdir
    ensures Coherent(tlbs, cpu, cpus, envs, g, b, m) ==> Coherent(tlbs, cpu, cpus, envs', g, b, m)
  {
  }

  /** Changes to CPUs that leave cr3 and cpu_env alone. */
  lemma PlacesKeepCoherence(tlbs: map<nat, Tlb>, cpu: nat, cpus: seq<Cpu>, cpus': seq<Cpu>, envs: seq<Env>, g: Graph,
                            b: Boot, m: seq<Frame>)
    requires |cpus| == |cpus'|
    requires forall c | 0 <= c < |cpus| :: cpus'[c].cr3 == cpus[c].cr3 && cpus'[c].env == cpus[c].env
    ensures Coherent(tlbs, cpu, cpus, envs, g, b, m) ==> Coherent(tlbs, cpu, cpus', envs, g, b, m)
  {
  }

  /** Forgetting a CPU's environment. */
  lemma IdleKeepsCoherence(tlbs: map<nat, Tlb>, cpu: nat, cpus: seq<Cpu>, c: nat, envs: seq<Env>, g: Graph, b: Boot,
                           m: seq<Frame>)
    requires c < |cpus|
    ensures Coherent(tlbs, cpu, cpus, envs, g, b, m) ==>
      Coherent(tlbs, cpu, cpus[c := cpus[c].(env := None)], envs, g, b, m)
  {
  }

  /** Loading cr3 empties the buffer. */
  lemma LoadingIsCoherent(tlbs: map<nat, Tlb>, cpu: nat, cpus: seq<Cpu>, envs: seq<Env>, g: Graph, b: Boot,
                          m: seq<Frame>)
    requires cpu < |cpus| && cpus[cpu].cr3 < |m| && Root(g, b, cpus[cpu].cr3) && cpu in tlbs
    requires cpus[cpu].env.Some? ==>
      && cpus[cpu].env.value < |envs|
      && (cpus[cpu].cr3 == b.kern || envs[cpus[cpu].env.value].pgdir == Some(cpus[cpu].cr3))
    ensures Coherent(Emptied(tlbs, cpu), cpu, cpus, envs, g, b, m)
  {
  }

  lemma FillsKeepCoherence(tlbs: map<nat, Tlb>, tlbs': map<nat, Tlb>, cpu: nat, cpus: seq<Cpu>, envs: seq<Env>,
                           g: Graph, b: Boot, m: seq<Frame>)
    requires AllFilled(tlbs, tlbs', m, cpus)
    ensures Coherent(tlbs, cpu, cpus, envs, g, b, m) ==> Coherent(tlbs', cpu, cpus, envs, g, b, m)
  {
  }

  predicate Loaded(cpus: seq<Cpu>, cpu: nat, d: nat) {
    cpu < |cpus| && cpus[cpu].cr3 == d
  }

  /** Writes that leave every translation there was in place. */
  lemma WritesKeepCoherence(tlbs: map<nat, Tlb>, cpu: nat, cpus: seq<Cpu>, envs: seq<Env>,
                            g: Graph, g': Graph, b: Boot, m: seq<Frame>, m': seq<Frame>)
    requires forall r | Root(g, b, r) && Loaded(cpus, cpu, r) :: KeepsPresent(m, m', r)
    requires forall e: nat | Dir(e) in g :: Dir(e) in g' && g'[Dir(e)] == g[Dir(e)]
    ensures Coherent(tlbs, cpu, cpus, envs, g, b, m) ==> Coherent(tlbs, cpu, cpus, envs, g', b, m')
  {
    if Coherent(tlbs, cpu, cpus, envs, g, b, m) && cpu < |cpus| && cpu in tlbs {
      KeepsAgreement(tlbs[cpu], m, m', cpus[cpu].cr3);
    }
  }

  /** Writing a page that is no table. */
  lemma DataKeepsCoherence(tlbs: map<nat, Tlb>, cpu: nat, cpus: seq<Cpu>, envs: seq<Env>,
                           c: Counts, g: Graph, b: Boot, m: seq<Frame>, h: Held, p: nat, f: Frame)
    requires Inv(c, g, m, b, h) && p < |m| && NotTable(g, b, p)
    ensures Coherent(tlbs, cpu, cpus, envs, g, b, m) ==> Coherent(tlbs, cpu, cpus, envs, g, b, m[p := f])
  {
    hide Coherent, KeepsPresent;
    forall r | Root(g, b, r) ensures KeepsPresent(m, m[p := f], r) {
      DataWriteUnseen(g, m, b, p, f, r);
    }
    WritesKeepCoherence(tlbs, cpu, cpus, envs, g, g, b, m, m[p := f]);
  }

  /** Hanging a table into an empty directory entry. */
  lemma HangingKeepsCoherence(tlbs: map<nat, Tlb>, cpu: nat, cpus: seq<Cpu>, envs: seq<Env>,
                              c: Counts, g: Graph, b: Boot, m: seq<Frame>, h: Held, s: Slot, d: nat, w: Word)
    requires Inv(c, g, m, b, h) && d < |m| && (s.Pde? || s.Kern?) && s.i < NPTENTRIES && !m[d][s.i].flags.p
    requires s.Pde? ==> Dir(s.e) in g && g[Dir(s.e)].addr == d && s.i < USER_PDES
    requires s.Kern? ==> d == b.kern && s.i != UVPT_PDX && forall e: nat :: Dir(e) !in g
    ensures Coherent(tlbs, cpu, cpus, envs, g, b, m) ==>
      Coherent(tlbs, cpu, cpus, envs, g[s := w], b, m[d := m[d][s.i := w]])
  {
    hide Coherent, KeepsPresent, Match, GraphOk, CountInv;
    var m' := m[d := m[d][s.i := w]];
    forall r | Root(g, b, r) ensures KeepsPresent(m, m', r) {
      if s.Pde? {
        DirectoryWriteSeen(g, m, b, s.e, s.i, w, r);
      } else {
        KernelWriteSeen(g, m, b, s.i, w, r);
      }
    }
    WritesKeepCoherence(tlbs, cpu, cpus, envs, g, g[s := w], b, m, m');
  }

  /** Clearing a directory entry that is not seen from cr3. */
  lemma ClearingKeepsCoherence(tlbs: map<nat, Tlb>, cpu: nat, cpus: seq<Cpu>, envs: seq<Env>,
                               c: Counts, g: Graph, b: Boot, m: seq<Frame>, h: Held, e: nat, i: nat)
    requires Inv(c, g, m, b, h) && Dir(e) in g && i < USER_PDES && g[Dir(e)].addr < |m|
    requires !Loaded(cpus, cpu, g[Dir(e)].addr)
    ensures var d := g[Dir(e)].addr;
      Coherent(tlbs, cpu, cpus, envs, g, b, m) ==> Coherent(tlbs, cpu, cpus, envs, g - {Pde(e, i)}, b,
               m[d := m[d][i := ZERO]])
  {
    hide Coherent, KeepsPresent, Match, GraphOk, CountInv;
    var d := g[Dir(e)].addr;
    var m' := m[d := m[d][i := ZERO]];
    forall r | Root(g, b, r) && Loaded(cpus, cpu, r) ensures KeepsPresent(m, m', r) {
      DirectoryWriteSeen(g, m, b, e, i, ZERO, r);
    }
    WritesKeepCoherence(tlbs, cpu, cpus, envs, g, g - {Pde(e, i)}, b, m, m');
  }

  /** Forgetting a directory that is not in cr3. */
  lemma DroppingKeepsCoherence(tlbs: map<nat, Tlb>, cpu: nat, cpus: seq<Cpu>, envs: seq<Env>, g: Graph, b: Boot,
                               m: seq<Frame>, e: nat)
    requires Dir(e) in g && !Loaded(cpus, cpu, g[Dir(e)].addr) && e < |envs| && envs[e].pgdir == Some(g[Dir(e)].addr)
    ensures Coherent(tlbs, cpu, cpus, envs, g, b, m) ==>
      Coherent(tlbs, cpu, cpus, envs[e := envs[e].(pgdir := None)], g - {Dir(e)}, b, m)
  {
    if Coherent(tlbs, cpu, cpus, envs, g, b, m) && cpu < |cpus| && cpu in tlbs && cpus[cpu].cr3 != b.kern {
      var r := cpus[cpu].cr3;
      var e': nat :| Dir(e') in g && g[Dir(e')].addr == r;
      assert Dir(e') in g - {Dir(e)};
    }
  }

  /** Storing into an empty table entry. */
  lemma StoringKeepsCoherence(tlbs: map<nat, Tlb>, cpu: nat, cpus: seq<Cpu>, envs: seq<Env>,
                              c: Counts, g: Graph, b: Boot, m: seq<Frame>, h: Held, e: nat, i: nat, j: nat, w: Word)
    requires Inv(c, g, m, b, h) && Pde(e, i) in g && j < NPTENTRIES && g[Pde(e, i)].addr < |m|
    requires !m[g[Pde(e, i)].addr][j].flags.p
    ensures var t := g[Pde(e, i)].addr;
      Coherent(tlbs, cpu, cpus, envs, g, b, m) ==> Coherent(tlbs, cpu, cpus, envs, g[Pte(e, i, j) := w], b,
               m[t := m[t][j := w]])
  {
    hide Coherent, KeepsPresent, Match, GraphOk, CountInv;
    var t := g[Pde(e, i)].addr;
    var m' := m[t := m[t][j := w]];
    forall r | Root(g, b, r) ensures KeepsPresent(m, m', r) {
      TableWriteSeen(g, m, b, e, i, j, w, r);
    }
    WritesKeepCoherence(tlbs, cpu, cpus, envs, g, g[Pte(e, i, j) := w], b, m, m');
  }

  /** page_remove clears a word and then flushes its page, if the edited directory may be the one in cr3. Whatever the
      hardware caches in between, the buffer agrees at the end. */
  lemma RemovalAgrees(c: Counts, g: Graph, b: Boot, m: seq<Frame>, h: Held, s: Slot, r: nat, tlb: Tlb, tlb1: Tlb,
                      flushed: bool)
    requires Inv(c, g, m, b, h) && s.Pte? && Pde(s.e, s.i) in g && s.j < NPTENTRIES && Root(g, b, r)
    ensures Dir(s.e) in g && g[Pde(s.e, s.i)].addr < |m| && Root(g - {s}, b, r)
    ensures var t := g[Pde(s.e, s.i)].addr; var m' := m[t := m[t][s.j := ZERO]];
      Agrees(tlb, m, r) && Filled(tlb, tlb1, m', r) && (flushed || r != g[Dir(s.e)].addr) ==>
        Agrees(if flushed then tlb1 - {Page(s.i, s.j)} else tlb1, m', r)
  {
    hide Match, GraphOk, CountInv, Agrees, Filled, KeepsPresent, KeepsOthers, Root;
    TablesExist(g, m, b, s.e, s.i);
    RootStays(g, b, r, s);
    var t := g[Pde(s.e, s.i)].addr;
    var m' := m[t := m[t][s.j := ZERO]];
    TableWriteSeen(g, m, b, s.e, s.i, s.j, ZERO, r);
    if Agrees(tlb, m, r) && Filled(tlb, tlb1, m', r) {
      if flushed {
        FlushRepairs(tlb, tlb1, m, m', r, Page(s.i, s.j));
      } else if r != g[Dir(s.e)].addr {
        KeepsAgreement(tlb, m, m', r);
        FillKeeps(tlb, tlb1, m', r);
      }
    }
  }

  /** Every buffer has been filled in some way allowed. */
  ghost predicate AllFilled(tlbs: map<nat, Tlb>, tlbs': map<nat, Tlb>, m: seq<Frame>, cpus: seq<Cpu>) {
    && tlbs'.Keys == tlbs.Keys
    && forall c | c in tlbs' && c < |cpus| && cpus[c].cr3 < |m| :: Filled(tlbs[c], tlbs'[c], m, cpus[c].cr3)
  }

  lemma RemovalKeepsCoherence(tlbs: map<nat, Tlb>, tlbs1: map<nat, Tlb>, cpu: nat, cpus: seq<Cpu>, envs: seq<Env>,
                              c: Counts, g: Graph, b: Boot, m: seq<Frame>, h: Held, s: Slot, cur: Option<nat>)
    requires Inv(c, g, m, b, h) && s.Pte? && Pde(s.e, s.i) in g && s.j < NPTENTRIES
    requires Coherent(tlbs, cpu, cpus, envs, g, b, m)
    requires cur == if cpu < |cpus| then cpus[cpu].env else None
    ensures Dir(s.e) in g && g[Pde(s.e, s.i)].addr < |m|
    ensures var t := g[Pde(s.e, s.i)].addr; var m' := m[t := m[t][s.j := ZERO]];
      AllFilled(tlbs, tlbs1, m', cpus) ==>
        Coherent(if cur == None || PgdirOf(envs, cur) == Some(g[Dir(s.e)].addr) then Flushed(tlbs1, cpu, Page(s.i, s.j))
                 else tlbs1, cpu, cpus, envs, g - {s}, b, m')
  {
    hide Inv, Agrees, Filled, Root;
    RemovalAgrees(c, g, b, m, h, s, b.kern, map[], map[], true) by { KernIsRoot(g, b); }
    var t := g[Pde(s.e, s.i)].addr;
    var m' := m[t := m[t][s.j := ZERO]];
    if AllFilled(tlbs, tlbs1, m', cpus) && cpu < |cpus| && cpu in tlbs {
      var r := cpus[cpu].cr3;
      assert r < |m| by { AgreeingIsInMemory(tlbs[cpu], m, r); }
      var flushed := cur == None || PgdirOf(envs, cur) == Some(g[Dir(s.e)].addr);
      DirectoryIsNoKern(c, g, m, b, h, s.e);
      RemovalAgrees(c, g, b, m, h, s, r, tlbs[cpu], tlbs1[cpu], flushed);
    }
  }

  lemma KernIsRoot(g: Graph, b: Boot)
    ensures Root(g, b, b.kern)
  {
  }

  lemma AgreeingIsInMemory(tlb: Tlb, m: seq<Frame>, r: nat)
    requires Agrees(tlb, m, r)
    ensures r < |m|
  {
  }

  lemma DirectoryIsNoKern(c: Counts, g: Graph, m: seq<Frame>, b: Boot, h: Held, e: nat)
    requires Inv(c, g, m, b, h)
    ensures Dir(e) in g ==> g[Dir(e)].addr != b.kern
  {
  }

  lemma RootStays(g: Graph, b: Boot, r: nat, s: Slot)
    requires Root(g, b, r) && !s.Dir?
    ensures Root(g - {s}, b, r)
  {
    if r != b.kern {
      var e: nat :| Dir(e) in g && g[Dir(e)].addr == r;
      assert Dir(e) in g - {s};
    }
  }

  lemma WriteTwice(m: seq<Frame>, m': seq<Frame>, t: nat, f: Frame)
    requires t < |m| == |m'| && (m' == m || m' == m[t := m'[t]])
    ensures m'[t := f] == m[t := f]
  {
  }

  lemma RemoveThenStore(g: Graph, g': Graph, s: Slot, w: Word)
    requires g' == g || g' == g - {s}
    ensures g'[s := w] == g[s := w]
  {
  }

  /** The graph after a walk that creates the table for entry `i` of environment `e` if it is missing. */
  ghost function WithTable(g: Graph, free: seq<nat>, e: nat, i: nat): Graph
    requires Pde(e, i) in g || free != []
  {
    if Pde(e, i) in g then g else g[Pde(e, i) := Word(free[0], PWU)]
  }

  /** Page `pp` can be counted once more, or it is mapped at slot `s` already and will be counted down again. */
  predicate HasRoomAt(c: Counts, g: Graph, pp: nat, s: Slot) {
    (pp < |c.pages| && c.pages[pp].ref < REF_LIMIT - 1) || (s in g && g[s].addr == pp)
  }

  lemma NotTaken(c: Counts, g: Graph, m: seq<Frame>, b: Boot, h: Held, p: nat)
    requires Inv(c, g, m, b, h) && p < |c.pages| && c.pages[p].ref >= REF_LIMIT - 1
    ensures c.pages[p].ref == REF_LIMIT - 1 && h.taken - {p} == h.taken
  {
  }

  /** What storing page `pp` does to counts and free list: it is counted up, and the page it replaces down. */
  ghost predicate CountsAfterReplace(c: Counts, c': Counts, g: Graph, pp: nat, s: Slot) {
    && pp < |c.pages|
    && if s !in g then
         c' == Incremented(c, pp)
       else
         var q := g[s].addr;
         && q < |c.pages| && (c.pages[pp].ref < REF_LIMIT - 1 ==> Incremented(c, pp).pages[q].ref > 0)
         && c' == Decremented(Incremented(c, pp), q)
  }

  /** Sixteen bits are enough exactly so far: storing page `pp` at slot `s` keeps the counts if and only if its count
      was not 65535, or it was mapped there already. */
  lemma ReplaceKeepsExactly(c: Counts, c': Counts, g: Graph, b: Boot, h: Held, s: Slot, w: Word)
    requires CountInv(c, g, b, h) && 0 < w.addr < b.npages && w.addr !in c.free && w.addr !in h.ahead
    requires s in g ==> 0 < g[s].addr < b.npages
    requires CountsAfterReplace(c, c', g, w.addr, s)
    ensures CountInv(c', g[s := w], b, h.(taken := h.taken - {w.addr})) <==> HasRoomAt(c, g, w.addr, s)
  {
    var pp := w.addr;
    var h1 := Held(h.taken - {pp}, h.ahead + {pp});
    if HasRoomAt(c, g, pp, s) {
      if c.pages[pp].ref < REF_LIMIT - 1 {
        IncrementKeeps(c, g, b, h, pp);
        if s in g {
          UnlinkKeeps(Incremented(c, pp), g, b, h1, s);
        } else {
          assert g - {s} == g;
        }
      } else {
        UnlinkAhead(c, g, b, h, s);
        OverAndBack(c, pp);
        assert Held(h.taken, h.ahead + {pp}) == h1;
      }
      hide CountInv, CountsAfterReplace;
      LinkSettles(c', g, b, h, s, w);
    } else {
      assert s in Refs(g[s := w], pp);
      NoRefs(g[s := w], pp);
    }
  }

  lemma LinkSettles(c: Counts, g: Graph, b: Boot, h: Held, s: Slot, w: Word)
    requires w.addr !in h.ahead
    requires CountInv(c, g - {s}, b, Held(h.taken - {w.addr}, h.ahead + {w.addr}))
    ensures CountInv(c, g[s := w], b, h.(taken := h.taken - {w.addr}))
  {
    LinkKeeps(c, g - {s}, b, Held(h.taken - {w.addr}, h.ahead + {w.addr}), s, w);
    assert h.ahead + {w.addr} - {w.addr} == h.ahead;
    assert (g - {s})[s := w] == g[s := w];
  }

  /** The same for a whole insertion: a missing table is taken from the free list first and counted once. */
  ghost predicate CountsAfterInsert(c: Counts, c': Counts, g: Graph, pp: nat, e: nat, i: nat, j: nat) {
    if Pde(e, i) !in g then
      && c.free != [] && c.free[0] < |c.pages|
      && CountsAfterReplace(Incremented(Popped(c), c.free[0]), c', g, pp, Pte(e, i, j))
    else
      CountsAfterReplace(c, c', g, pp, Pte(e, i, j))
  }
}

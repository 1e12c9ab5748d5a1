/** What the system calls promise the program that makes them, in terms of ids, addresses, bits and what environments
    see. */
module Effects {
  import opened Layout
  import opened Graph
  import opened EnvId
  import opened EnvState
  import opened Steps
  import opened PageState
  import opened Pmap
  import opened EnvOps
  import opened AddressSpace
  import opened Syscall
  import opened RunState
  import opened Ipc
  import opened Traps
  import opened WriteOnce

  /** Environment `e` is the one that `cur` means by `id`: 0 is itself, another id that of a live environment. */
  predicate Named(envs: seq<Env>, cur: nat, id: int, e: nat) {
    cur < |envs| && e < |envs| && if id == 0 then e == cur else envs[e].status != Free && envs[e].id == id
  }

  /** It is `cur` itself or a child of it. */
  predicate Governed(envs: seq<Env>, cur: nat, id: int, e: nat) {
    Named(envs, cur, id, e) && (e == cur || envs[e].parent == envs[cur].id)
  }

  /** A page below UTOP, and exactly P, U, and perhaps W and the AVAIL bits. */
  predicate AddressOk(va: nat) { va < 0xEEC00000 && va % 0x1000 == 0 }

  predicate BitsOk(perm: Word) {
    && perm.addr == 0
    && Bits(perm.flags) & 0x004 != 0 && Bits(perm.flags) & 0x001 != 0 && Bits(perm.flags) & 0x1F8 == 0
  }

  /** The page of `e` at `va`. */
  ghost function PageOf(g: Graph, e: nat, va: nat): Option<Word> {
    if va / 0x1000 in Flat(g, e) then Some(Flat(g, e)[va / 0x1000]) else None
  }

  /** A page of zeros that nobody had is at `va` in `e`, with this permission, and nobody else sees a change. */
  ghost predicate HasNewPage(g: Graph, g': Graph, m': seq<Frame>, e: nat, va: nat, perm: Flags) {
    && PageOf(g', e, va).Some? && PageOf(g', e, va).value.flags == perm
    && var p := PageOf(g', e, va).value.addr;
      && !Referenced(g, p) && (p != VGA_PAGE ==> p < |m'| && m'[p] == ZeroFrame())
      && OnlyPage(g, g', e, va)
  }

  /** Nobody sees a change but perhaps `e` at `va`. */
  ghost predicate OnlyPage(g: Graph, g': Graph, e: nat, va: nat) {
    forall e': nat, v: nat | e' != e || v != va / 0x1000 ::
      (v in Flat(g', e') <==> v in Flat(g, e')) && (v in Flat(g', e') ==> Flat(g', e')[v] == Flat(g, e')[v])
  }

  /** What is asked of sys_page_map: good addresses and bits, a page at the source, and no more write permission than
      the source has. */
  ghost predicate MayShare(g: Graph, s: nat, srcva: nat, dstva: nat, perm: Word) {
    && AddressOk(srcva) && AddressOk(dstva) && BitsOk(perm)
    && PageOf(g, s, srcva).Some? && (perm.flags.w ==> PageOf(g, s, srcva).value.flags.w)
  }

  /** What a system call of `cur` has done when it returns `code`; `free` is the number of free pages before it. The
      errors are -2 for an environment, -3 for an argument, -4 for memory, -5 for a slot, -7 for a target that does not
      wait. */
  ghost predicate Did(call: Call, code: int, cur: nat, envs: seq<Env>, g: Graph, free: nat, envs': seq<Env>, g': Graph,
                      m': seq<Frame>)
    requires cur < |envs| == |envs'|
  {
    && (code < 0 ==> g' == g)
    && match call
      case CputsCall(s, len) =>
        && code == 0 && g' == g
        && s + len < 0xEF800000
        && forall a: nat | s <= a < s + len && a < 0xEEC00000 ::
             PageOf(g, cur, a).Some? && PageOf(g, cur, a).value.flags.u
      case GetEnvId => code == envs[cur].id && g' == g
      case Unknown => code == -3
      case Yield => false
      case RecvCall(dstva) => code == -3 && dstva < 0xEEC00000 && dstva % 0x1000 != 0
      case ExoforkCall =>
        if code >= 0 then HasChild(code, cur, envs, g, envs', g')
        else if exists e :: 0 <= e < |envs| && envs[e].status == Free then code == -4 && free == 0
        else code == -5
      case DestroyCall(id) =>
        && code == (if exists e: nat :: Governed(envs, cur, id, e) then 0 else -2)
        && forall e: nat | Governed(envs, cur, id, e) ::
             && e != cur
             && if envs[e].status == Running then envs'[e].status == Dying && g' == g
                else envs'[e].status == Free && Dir(e) !in g' && Flat(g', e) == map[]
      case SetStatusCall(id, status) =>
        && g' == g
        && code == (if status != Runnable && status != NotRunnable then -3
                    else if exists e: nat :: Governed(envs, cur, id, e) then 0 else -2)
        && forall e: nat | Governed(envs, cur, id, e) && code == 0 :: envs'[e].status == status
      case PageAllocCall(id, va, perm) =>
        && (code == -2 <==> forall e: nat :: !Governed(envs, cur, id, e))
        && forall e: nat | Governed(envs, cur, id, e) ::
             && (code == -3 <==> !AddressOk(va) || !BitsOk(perm))
             && (code == 0 ==> HasNewPage(g, g', m', e, va, perm.flags))
             && (code == 0 || code == -3 || (code == -4 && free < 2))
      case PageMapCall(srcid, srcva, dstid, dstva, perm) =>
        && (code == -2 <==> (forall s: nat :: !Governed(envs, cur, srcid, s))
                                   || (forall t: nat :: !Governed(envs, cur, dstid, t)))
        && forall s: nat, t: nat | Governed(envs, cur, srcid, s) && Governed(envs, cur, dstid, t) ::
             && (code == 0 ==>
                   && MayShare(g, s, srcva, dstva, perm) && OnlyPage(g, g', t, dstva)
                   && PageOf(g', t, dstva) == Some(Word(PageOf(g, s, srcva).value.addr, perm.flags)))
             && (MayShare(g, s, srcva, dstva, perm) ==> code == 0 || (code == -4 && free == 0))
      case PageUnmapCall(id, va) =>
        && (code == -2 <==> forall e: nat :: !Governed(envs, cur, id, e))
        && forall e: nat | Governed(envs, cur, id, e) ::
             && code == (if AddressOk(va) then 0 else -3)
             && (code == 0 ==> PageOf(g', e, va) == None && OnlyPage(g, g', e, va))
      case TrySendCall(id, value, srcva, perm) =>
        && (code == -2 <==> forall t: nat :: !Named(envs, cur, id, t))
        && forall t: nat | Named(envs, cur, id, t) ::
             && (code == -7 <==> !envs[t].recving)
             && (envs[t].recving && srcva >= 0xEEC00000 ==> code == 0)
             && (envs[t].recving && MayShare(g, cur, srcva, srcva, perm) && free > 0 ==> code == 0)
             && (code == 0 ==> Received(envs, cur, call, t, g, envs', g'))
  }

  /** The child of sys_exofork, whose id is returned: it waits with its parent's registers and 0 in eax, and has the
      screen and nothing else. */
  ghost predicate HasChild(code: int, cur: nat, envs: seq<Env>, g: Graph, envs': seq<Env>, g': Graph)
    requires cur < |envs| == |envs'|
  {
    var child := code % 1024;
    && child < |envs| && envs[child].status == Free && envs'[child].status == NotRunnable && envs'[child].id == code
    && envs'[child].parent == envs[cur].id && envs'[child].tf == envs[cur].tf.(eax := 0) && !envs'[child].recving
    && Flat(g', child) == map[0x401 := Word(0xB8, NO_FLAGS.(p := true, w := true, u := true, mapped := true))]
    && forall e: nat | e != child :: Flat(g', e) == Flat(g, e)
  }

  /** envid2env finds who is named. */
  ghost predicate NamesOk(envs: seq<Env>, cur: nat)
    requires cur < NENV == |envs|
  {
    forall id: int, e: nat ::
      && (Resolve(envs, cur, id, true) == Some(e) <==> Governed(envs, cur, id, e))
      && (Resolve(envs, cur, id, false) == Some(e) <==> Named(envs, cur, id, e))
  }

  lemma NamesAreIds(envs: seq<Env>, head: Option<nat>, list: seq<nat>, allocs: seq<nat>, g: Graph, cur: nat)
    requires EnvInv(envs, head, list, allocs, g) && cur < NENV
    ensures |envs| == NENV && NamesOk(envs, cur)
  {
    EnvSizes(envs, head, list, allocs, g);
    hide EnvInv, Resolve;
    forall id: int, e: nat
      ensures Resolve(envs, cur, id, true) == Some(e) <==> Governed(envs, cur, id, e)
      ensures Resolve(envs, cur, id, false) == Some(e) <==> Named(envs, cur, id, e)
    {
      if e < NENV {
        AcceptedExactly(envs, head, list, allocs, g, cur, id, e, false);
        AcceptedExactly(envs, head, list, allocs, g, cur, id, e, true);
        if id != 0 {
          ResolveFindsTheHolder(envs, head, list, allocs, g, cur, id, e);
        }
      }
    }
  }

  lemma NoneNamed(envs: seq<Env>, cur: nat, id: int)
    requires cur < NENV == |envs| && NamesOk(envs, cur)
    ensures var r := Resolve(envs, cur, id, true);
      && (r == None <==> forall e: nat :: !Governed(envs, cur, id, e))
      && (forall e: nat | Governed(envs, cur, id, e) :: r == Some(e)) && (r.Some? ==> Governed(envs, cur, id, r.value))
    ensures var r := Resolve(envs, cur, id, false);
      && (r == None <==> forall e: nat :: !Named(envs, cur, id, e))
      && (forall e: nat | Named(envs, cur, id, e) :: r == Some(e)) && (r.Some? ==> Named(envs, cur, id, r.value))
  {
    hide Resolve, Named, Governed;
    var r, n := Resolve(envs, cur, id, true), Resolve(envs, cur, id, false);
    if r.Some? {
      assert Governed(envs, cur, id, r.value);
    }
    if n.Some? {
      assert Named(envs, cur, id, n.value);
    }
  }

  lemma RemappedOnly(g: Graph, g': Graph, e: nat, va: nat, w: Word)
    requires va < UTOP && Remapped(g, g', e, va, w)
    ensures PageOf(g', e, va) == Some(w) && OnlyPage(g, g', e, va)
  {
    hide Flat;
  }

  lemma AllocDid(call: Call, code: int, cur: nat, g: Graph, free: nat, envs: seq<Env>, mail: seq<History>, g': Graph,
                 envs1: seq<Env>, mail': seq<History>, envs': seq<Env>, m': seq<Frame>)
    requires cur < NENV == |envs| == |mail| == |envs'| && WordsOk(call) && NamesOk(envs, cur) && call.PageAllocCall?
    requires Served(call, code, cur, g, free, envs, mail, g', envs1, mail') && NewPagesZero(g, g', m')
    ensures Did(call, code, cur, envs, g, free, envs', g', m')
  {
    hide Flat, Resolve, NamesOk, Named, Governed, OnlyPage, Bits, OnlySyscallBits, Referenced;
    NoneNamed(envs, cur, call.envid);
    PermIsMask(call.perm);
    if code == 0 {
      var t := Resolve(envs, cur, call.envid, true).value;
      var p: nat :| FreshPage(g, g', t, call.va, Word(p, call.perm.flags));
      RemappedOnly(g, g', t, call.va, Word(p, call.perm.flags));
      assert PGNUM(call.va) in Flat(g', t);
    }
  }

  lemma MapDid(call: Call, code: int, cur: nat, g: Graph, free: nat, envs: seq<Env>, mail: seq<History>, g': Graph,
               envs1: seq<Env>, mail': seq<History>, envs': seq<Env>, m': seq<Frame>)
    requires cur < NENV == |envs| == |mail| == |envs'| && WordsOk(call) && NamesOk(envs, cur) && call.PageMapCall?
    requires forall e: nat, i: nat, j: nat | Pte(e, i, j) in g :: Pde(e, i) in g
    requires Served(call, code, cur, g, free, envs, mail, g', envs1, mail')
    ensures Did(call, code, cur, envs, g, free, envs', g', m')
  {
    hide Flat, Resolve, NamesOk, Named, Governed, OnlyPage, Bits, OnlySyscallBits, Remapped;
    NoneNamed(envs, cur, call.srcenvid);
    NoneNamed(envs, cur, call.dstenvid);
    PermIsMask(call.perm);
    var s, t := Resolve(envs, cur, call.srcenvid, true), Resolve(envs, cur, call.dstenvid, true);
    if s.Some? && t.Some? && call.srcva < UTOP {
      LookupReads(g, s.value, call.srcva);
      if code == 0 {
        RemappedOnly(g, g', t.value, call.dstva, Word(g[At(s.value, call.srcva)].addr, call.perm.flags));
      }
    }
  }

  lemma UnmapDid(call: Call, code: int, cur: nat, g: Graph, free: nat, envs: seq<Env>, mail: seq<History>, g': Graph,
                 envs1: seq<Env>, mail': seq<History>, envs': seq<Env>, m': seq<Frame>)
    requires cur < NENV == |envs| == |mail| == |envs'| && WordsOk(call) && NamesOk(envs, cur) && call.PageUnmapCall?
    requires Served(call, code, cur, g, free, envs, mail, g', envs1, mail')
    ensures Did(call, code, cur, envs, g, free, envs', g', m')
  {
    hide Flat, Resolve, NamesOk, Named, Governed;
    NoneNamed(envs, cur, call.envid);
  }

  lemma EnvsDid(call: Call, code: int, cur: nat, g: Graph, free: nat, envs: seq<Env>, mail: seq<History>, g': Graph,
                envs1: seq<Env>, mail': seq<History>, envs': seq<Env>, m': seq<Frame>)
    requires cur < NENV == |envs| == |mail| == |envs'| && WordsOk(call) && NamesOk(envs, cur)
    requires call.DestroyCall? || call.SetStatusCall?
    requires Served(call, code, cur, g, free, envs, mail, g', envs1, mail') && |envs1| == NENV
    requires forall e: nat | e < NENV :: envs'[e].status == envs1[e].status
    ensures Did(call, code, cur, envs, g, free, envs', g', m')
  {
    hide Flat, Resolve, NamesOk, Named, Governed, WithoutEnv;
    NoneNamed(envs, cur, call.envid);
    if call.DestroyCall? && code == 0 {
      NothingLeft(g, Resolve(envs, cur, call.envid, true).value);
    }
  }

  lemma NothingLeft(g: Graph, e: nat)
    ensures Dir(e) !in WithoutEnv(g, e) && Flat(WithoutEnv(g, e), e) == map[]
  {
  }

  lemma ForkDid(call: Call, code: int, cur: nat, g: Graph, free: nat, envs: seq<Env>, mail: seq<History>, g': Graph,
                envs1: seq<Env>, mail': seq<History>, envs': seq<Env>, m': seq<Frame>)
    requires cur < NENV == |envs| == |mail| == |envs'| && WordsOk(call) && call.ExoforkCall? && envs[cur].status != Free
    requires Served(call, code, cur, g, free, envs, mail, g', envs1, mail') && |envs1| == NENV
    requires forall e: nat | e < NENV && e != cur :: envs'[e] == envs1[e]
    ensures Did(call, code, cur, envs, g, free, envs', g', m')
  {
    hide Flat;
    if code >= 0 {
      var child := EnvX(code);
      var d: nat :| Remapped(g[Dir(child) := Word(d, NO_FLAGS)], g', child, VGA_USER, Word(VGA_PAGE, VGA_FLAGS));
      SamePages(g, g[Dir(child) := Word(d, NO_FLAGS)]);
    }
  }

  lemma SendDid(call: Call, code: int, cur: nat, g: Graph, free: nat, envs: seq<Env>, mail: seq<History>, g': Graph,
                envs1: seq<Env>, mail': seq<History>, envs': seq<Env>, m': seq<Frame>)
    requires cur < NENV == |envs| == |mail| == |envs'| && WordsOk(call) && NamesOk(envs, cur) && call.TrySendCall?
    requires Served(call, code, cur, g, free, envs, mail, g', envs1, mail') && |envs1| == NENV
    requires forall e: nat | e < NENV :: envs'[e] == envs1[e].(tf := envs'[e].tf)
    requires forall e: nat, i: nat, j: nat | Pte(e, i, j) in g :: Pde(e, i) in g
    requires WokenReceived(envs, cur, call, g, envs', g') && envs[cur].status != Free
    ensures Did(call, code, cur, envs, g, free, envs', g', m')
  {
    hide Flat, Resolve, NamesOk, HandedOver, Received, MayShare, TrySendResult;
    NoneNamed(envs, cur, call.envid);
    SendCodes(g, free, envs, cur, Resolve(envs, cur, call.envid, false), call.srcva, call.perm, code);
  }

  lemma SendCodes(g: Graph, free: nat, envs: seq<Env>, cur: nat, t: Option<nat>, srcva: nat, perm: Word, code: int)
    requires |envs| == NENV && (t.Some? ==> t.value < NENV)
    requires forall e: nat, i: nat, j: nat | Pte(e, i, j) in g :: Pde(e, i) in g
    requires Ret(code) == TrySendResult(g, free, envs, cur, t, srcva, perm)
    ensures code == E_BAD_ENV <==> t == None
    ensures t.Some? ==>
      && (code == E_IPC_NOT_RECV <==> !envs[t.value].recving)
      && (envs[t.value].recving && (srcva >= 0xEEC00000 || (MayShare(g, cur, srcva, srcva, perm) && free > 0)) ==>
            code == 0)
  {
    hide Flat, Bits, OnlySyscallBits;
    PermIsMask(perm);
    if srcva < UTOP {
      LookupReads(g, cur, srcva);
    }
  }

  /** Every system call that returns has done what it promises. */
  lemma AnsweredDid(call: Call, code: int, cur: nat, g: Graph, free: nat, envs: seq<Env>, mail: seq<History>, g': Graph,
                    envs': seq<Env>, mail': seq<History>, m': seq<Frame>)
    requires Answered(call, code, cur, g, free, envs, mail, g', envs', mail') && NamesOk(envs, cur)
    requires forall e: nat, i: nat, j: nat | Pte(e, i, j) in g :: Pde(e, i) in g
    requires NewPagesZero(g, g', m') && (call.TrySendCall? ==> WokenReceived(envs, cur, call, g, envs', g'))
    requires envs[cur].status != Free
    ensures Did(call, code, cur, envs, g, free, envs', g', m')
  {
    hide Served, WordsOk, NamesOk, NewPagesZero, WokenReceived;
    var envs1: seq<Env> :|
      && |envs1| == NENV && envs' == envs1[cur := envs1[cur].(tf := envs1[cur].tf.(eax := code))]
      && Served(call, code, cur, g, free, envs, mail, g', envs1, mail');
    if call.PageAllocCall? {
      AllocDid(call, code, cur, g, free, envs, mail, g', envs1, mail', envs', m');
    } else if call.PageMapCall? {
      MapDid(call, code, cur, g, free, envs, mail, g', envs1, mail', envs', m');
    } else if call.PageUnmapCall? {
      UnmapDid(call, code, cur, g, free, envs, mail, g', envs1, mail', envs', m');
    } else if call.DestroyCall? || call.SetStatusCall? {
      EnvsDid(call, code, cur, g, free, envs, mail, g', envs1, mail', envs', m');
    } else if call.ExoforkCall? {
      ForkDid(call, code, cur, g, free, envs, mail, g', envs1, mail', envs', m');
    } else if call.TrySendCall? {
      SendDid(call, code, cur, g, free, envs, mail, g', envs1, mail', envs', m');
    } else {
      SelfDid(call, code, cur, g, free, envs, mail, g', envs1, mail', envs', m');
    }
  }

  lemma SelfDid(call: Call, code: int, cur: nat, g: Graph, free: nat, envs: seq<Env>, mail: seq<History>, g': Graph,
                envs1: seq<Env>, mail': seq<History>, envs': seq<Env>, m': seq<Frame>)
    requires cur < NENV == |envs| == |mail| == |envs'| && WordsOk(call)
    requires call.CputsCall? || call.GetEnvId? || call.Unknown? || call.Yield? || call.RecvCall?
    requires Served(call, code, cur, g, free, envs, mail, g', envs1, mail')
    ensures Did(call, code, cur, envs, g, free, envs', g', m')
  {
    hide Flat;
    if call.CputsCall? {
      forall a: nat | call.s <= a < call.s + call.len && a < UTOP
        ensures PageOf(g, cur, a).Some? && PageOf(g, cur, a).value.flags.u
      {
        LookupReads(g, cur, a);
      }
    }
  }

  /** What a system call finds: ids name their environments, and no page entry is without its table. */
  lemma BeforeTheCall(k: Kernel, c: nat)
    requires Serving(k, c) && k.cpus[c].env.value < NENV
    ensures |k.envs| == NENV && NamesOk(k.envs, k.cpus[c].env.value)
    ensures forall e: nat, i: nat, j: nat | Pte(e, i, j) in k.g :: Pde(e, i) in k.g
  {
    hide Inv, EnvInv, Coherent, RunOk, MailOk, LogOk, NamesOk;
    NamesAreIds(k.envs, k.envFreeList, k.envFree, k.allocs, k.g, k.cpus[c].env.value);
    Shape(k.C(), k.g, k.mem, k.boot, NOTHING);
  }
}

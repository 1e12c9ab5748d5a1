/** kern/trap.c: entering the kernel, serving a trap, and leaving; with the system calls that change who runs. */
module Traps {
  import opened Layout
  import opened Graph
  import opened PageState
  import opened Tables
  import opened Steps
  import opened EnvId
  import opened EnvState
  import opened Tlb
  import opened Pmap
  import opened EnvOps
  import opened EnvTheorems
  import opened UserMem
  import opened AddressSpace
  import opened Syscall
  import opened Sched
  import opened RunState
  import opened Ipc
  import opened Run
  import opened WriteOnce
  import opened Isolation

  /** How serving a trap ends: back in trap() with a value for eax, out of the kernel through sched_yield, or with the
      end of the run (a panic, a store through a null pointer, or the monitor). */
  datatype Ending = Returns(code: int) | Left | Over

  /** sys_yield, and every other way into the scheduler: it does not return. */
  method YieldCpu(k: Kernel, c: nat) returns (r: Ending)
    requires Inside(k, c)
    modifies k`envs, k`cpus, k`lock, k`mail, k`tlbs, k`log
    ensures r == Left || r == Over
    ensures |old(k.envs)| == |old(k.mail)| == |k.envs| == NENV
    ensures r.Left? ==>
      && SystemInv(k) && k.lock == None
      && Scheduled(old(k.envs), old(k.cpus), old(k.mail), old(k.log), k.envs, k.cpus, k.mail, k.log, c, k.boot.kern)
      && c < |old(k.log)| && c < |old(k.cpus)|
      && Rescheduled(old(k.envs), old(k.cpus)[c].env, old(k.log)[c], old(k.cpus), old(k.log), c, k.envs, k.cpus, k.log)
    ensures r.Over? <==> !SomethingToRun(old(k.envs))
    ensures Grows(old(k.envs), old(k.mail), k.envs, k.mail, None) && Forward(old(k.log), k.log)
    ensures forall e | 0 <= e < NENV && k.envs[e].status != Free :: old(k.envs)[e].status != Free
  {
    hide Inv, EnvInv, Coherent, RunOk, MailOk, LogOk, Scheduled, Rescheduled, Grows, Forward;
    CurrentIsLive(k, c);
    MailSizes(k.envs, k.mail, k.allocs, k.sent);
    SameForward(k.log);
    var dead := SchedYield(k, c);
    if dead {
      SameGrows(k.envs, k.envs, k.mail, None);
      return Over;
    }
    MailSizes(k.envs, k.mail, k.allocs, k.sent);
    ScheduledGrows(old(k.envs), old(k.cpus), old(k.mail), k.envs, k.cpus, k.mail, old(k.log), k.log, c, k.boot.kern);
    return Left;
  }

  /** Rescheduling is about the turns and the environment of CPU `c` and about the other CPUs. */
  lemma OthersAsBefore(envs: seq<Env>, own: Option<nat>, turns: seq<Turn>, cpus: seq<Cpu>, log: seq<seq<Turn>>,
                       cpus0: seq<Cpu>, log0: seq<seq<Turn>>, c: nat, envs': seq<Env>, cpus': seq<Cpu>,
                       log': seq<seq<Turn>>)
    requires Rescheduled(envs, own, turns, cpus, log, c, envs', cpus', log') && c < |cpus0| == |cpus| && |log0| == |log|
    requires cpus == cpus0[c := cpus[c]] && c < |log| && log == log0[c := log[c]]
    ensures Rescheduled(envs, own, turns, cpus0, log0, c, envs', cpus', log')
  {
    hide GoesOnWith;
  }

  lemma SameForward(log: seq<seq<Turn>>)
    ensures Forward(log, log)
  {
  }

  /** A change to a CPU that leaves its environment alone. */
  lemma SameTurns(log: seq<seq<Turn>>, cpus: seq<Cpu>, c: nat, v: Cpu)
    requires LogOk(log, cpus) && c < |cpus| && v.env == cpus[c].env
    ensures LogOk(log, cpus[c := v])
  {
  }

  /** What touches no environment but perhaps the one that acts. */
  lemma AnyGrows(envs: seq<Env>, mail: seq<History>, envs': seq<Env>, mail': seq<History>, me: Option<nat>)
    requires Grows(envs, mail, envs', mail', None)
    ensures Grows(envs, mail, envs', mail', me)
  {
  }

  /** How the CPU goes on after a trap of its environment `cur` that has not returned to trap(): after the timer and
      sys_yield from where it was; after sys_ipc_recv with `cur` waiting for a message; otherwise `cur` was destroyed,
      and put in front of the free slots, which were `link`. */
  ghost predicate LeftFor(cause: Cause, cur: nat, link: Option<nat>, envs: seq<Env>, cpus: seq<Cpu>,
                          log: seq<seq<Turn>>, c: nat, envs': seq<Env>, cpus': seq<Cpu>, log': seq<seq<Turn>>)
  {
    cur < |envs| && c < |log| &&
    match cause
    case Timer => Rescheduled(envs, Some(cur), log[c], cpus, log, c, envs', cpus', log')
    case SystemCall(Yield) => Rescheduled(envs, Some(cur), log[c], cpus, log, c, envs', cpus', log')
    case SystemCall(RecvCall(dstva)) =>
      Rescheduled(envs[cur := envs[cur].(dstva := dstva, recving := true, status := NotRunnable)], Some(cur), log[c],
                  cpus, log, c, envs', cpus', log')
    case _ =>
      && (cause == PageFault || cause == Unexpected || (cause.SystemCall? && MayEndCaller(envs, cur, cause.call)))
      && Rescheduled(envs[cur := envs[cur].(pgdir := None, status := Free, link := link)], None, log[c] + [Lost], cpus,
                     log, c, envs', cpus', log')
  }

  /** The system calls that may destroy their caller: sys_cputs, and sys_env_destroy on itself. */
  predicate MayEndCaller(envs: seq<Env>, cur: nat, call: Call) {
    match call
    case CputsCall(_, _) => true
    case DestroyCall(envid) => cur < NENV == |envs| && Resolve(envs, cur, envid, true) == Some(cur)
    case _ => false
  }

  /** CPU `c` serves a trap of its environment, which is RUNNING. */
  ghost predicate Serving(k: Kernel, c: nat)
    reads k
  {
    Inside(k, c) && k.cpus[c].env.Some? && k.envs[k.cpus[c].env.value].status == Running
  }

  /** A trap from user mode, or a timer interrupt on a halted CPU, up to the wait for the kernel lock. */
  method Trap(k: Kernel, c: nat)
    requires SystemInv(k) && c < |k.cpus| && (k.cpus[c].place == InUser || k.cpus[c].place == InHalt)
    modifies k`cpus
    ensures SystemInv(k)
    ensures k.cpus == old(k.cpus)[c := old(k.cpus)[c].(place := Waiting)]
  {
    hide Inv, EnvInv, Coherent, RunOk, MailOk, LogOk;
    TrapKeeps(k.envs, k.cpus, k.lock, k.boot.kern, c);
    SameTurns(k.log, k.cpus, c, k.cpus[c].(place := Waiting));
    k.cpus := k.cpus[c := k.cpus[c].(place := Waiting)];
    PlacesKeepCoherence(k.tlbs, k.ThisCpu(), old(k.cpus), k.cpus, k.envs, k.g, k.boot, k.mem);
  }

  lemma RunningIsNotReceiving(k: Kernel, e: nat)
    requires SystemInv(k) && e < NENV
    ensures |k.envs| == |k.mail| == NENV
    ensures k.envs[e].status == Running ==> !k.envs[e].recving
  {
  }

  /** Slots other than `e` are as they were. */
  ghost predicate OthersSame(envs: seq<Env>, envs': seq<Env>, e: nat) {
    |envs| == |envs'| && forall e' | 0 <= e' < |envs| && e' != e :: envs'[e'] == envs[e']
  }

  /** What goes wrong when env_destroy is called on a zombie, an environment already DYING on another CPU: however its
      pages are given back, the directory that CPU has in cr3 is then on the free list. By RunState.DestroyKeepsExactly
      this is the only case in which env_destroy breaks the run invariant. */
  lemma ZombieFreedUnderItsCpu(k: Kernel, c: nat, e: nat, counts: Counts, m: seq<Frame>)
    requires SystemInv(k) && c < |k.cpus| && k.cpus[c].env == Some(e) && e < NENV == |k.envs| && k.lock != Some(c)
    requires k.envs[e].status == Dying
    requires Inv(counts, WithoutEnv(k.g, e), m, k.boot, NOTHING)
    ensures k.cpus[c].cr3 in counts.free
  {
    hide Inv, MailOk, IdAfter, Coherent, WithoutEnv;
    assert CpuOk(k.cpus[c], c, k.lock, k.envs, k.boot.kern);
    SlotInUse(k.envs, k.envFreeList, k.envFree, k.allocs, k.g, e);
    Sizes(k.C(), k.g, k.mem, k.boot, NOTHING);
    FreeReturnsWhatWasHeld(k.C(), k.mem, counts, m, k.g, k.boot, e, k.cpus[c].cr3);
  }

  /** env_destroy of an environment that is not a zombie on another CPU. */
  method EnvDestroy(k: Kernel, c: nat, e: nat) returns (r: Ending)
    requires Inside(k, c) && e < NENV == |k.envs| && k.envs[e].status != Free && k.envs[e].status != Dying
    modifies k`pages, k`pageFreeList, k`mem, k`free, k`tlbs, k`g, k`envs, k`envFreeList, k`envFree, k`cpus, k`lock,
             k`mail, k`log
    ensures r.Returns? ==> r == Returns(0) && |k.envs| == NENV && OthersSame(old(k.envs), k.envs, e)
    ensures r.Returns? ==>
      Inside(k, c) && k.cpus == old(k.cpus) && k.mail == old(k.mail) && k.log == old(k.log)
    ensures r.Returns? <==> old(k.cpus)[c].env != Some(e)
    ensures r.Over? <==> old(k.cpus)[c].env == Some(e) && NothingElse(old(k.envs), e)
    ensures old(k.envs)[e].status == Running && r.Returns? ==>
      k.envs[e] == old(k.envs)[e].(status := Dying) && k.C() == old(k.C()) && k.g == old(k.g) && k.mem == old(k.mem)
    ensures old(k.envs)[e].status != Running && r.Returns? ==> k.envs[e].status == Free
    ensures old(k.envs)[e].status != Running || !r.Returns? ==> k.g == WithoutEnv(old(k.g), e)
    ensures r.Left? ==>
      && SystemInv(k) && k.lock == None
      && c < |old(k.log)|
      && Rescheduled(old(k.envs)[e := old(k.envs)[e].(pgdir := None, status := Free, link := old(k.envFreeList))], None,
                     old(k.log)[c] + [Lost], old(k.cpus), old(k.log), c, k.envs, k.cpus, k.log)
    ensures SameMapped(old(k.g), k.boot, old(k.mem), k.mem)
    ensures Grows(old(k.envs), old(k.mail), k.envs, k.mail, None) && Forward(old(k.log), k.log)
  {
    hide Inv, EnvInv, Coherent, RunOk, MailOk, WithoutEnv, Extends, SameData, IdAfter, LoadedHereOnly, Scheduled, Grows,
         LogOk, Forward, SameMapped,
         Rescheduled;
    SameMappedRefl(k.C(), k.g, k.mem, k.boot, NOTHING);
    SameForward(k.log);
    MailSizes(k.envs, k.mail, k.allocs, k.sent);
    EnvSizes(k.envs, k.envFreeList, k.envFree, k.allocs, k.g);
    CurrentIsLive(k, c);
    if k.envs[e].status == Running && k.cpus[c].env != Some(e) {
      MarkDying(k, c, e);
      SameGrows(old(k.envs), k.envs, k.mail, None);
      return Returns(0);
    }
    if k.cpus[c].env == Some(e) {
      FreeCurrent(k, c, e);
      ghost var envs, cpus, log := k.envs, k.cpus, k.log;
      SameGrows(old(k.envs), envs, k.mail, None);
      LastOne(old(k.envs), e, envs[e]);
      r := YieldCpu(k, c);
      ThenGrows(old(k.envs), old(k.mail), envs, old(k.mail), k.envs, k.mail, None);
      ThenForward(old(k.log), log, k.log);
      if r.Left? {
        OthersAsBefore(envs, None, log[c], cpus, log, old(k.cpus), old(k.log), c, k.envs, k.cpus, k.log);
      }
      return;
    }
    FreeOther(k, c, e);
    SameGrows(old(k.envs), k.envs, k.mail, None);
    return Returns(0);
  }

  /** An environment running on another CPU becomes a zombie. */
  method MarkDying(k: Kernel, c: nat, e: nat)
    requires Inside(k, c) && e < NENV == |k.envs| && k.envs[e].status == Running && k.cpus[c].env != Some(e)
    modifies k`envs
    ensures Inside(k, c) && k.envs == old(k.envs)[e := old(k.envs)[e].(status := Dying)]
  {
    hide Inv, EnvInv, Coherent, RunOk, MailOk, IdAfter, LogOk;
    SlotAligned(k.envs, k.envFreeList, k.envFree, k.allocs, k.g, e);
    CurrentIsLive(k, c);
    DyingKeeps(k.envs, k.cpus, c, k.boot.kern, e);
    NotWoken(k.envs, k.mail, k.allocs, k.sent, e);
    k.envs := k.envs[e := k.envs[e].(status := Dying)];
    SlotChanged(old(k.envs), k.envFreeList, k.envFree, k.allocs, k.g, e, k.envs[e]);
    MailKeeps(old(k.envs), k.mail, k.allocs, k.sent, e, k.envs[e]);
    EnvsKeepCoherence(k.tlbs, k.ThisCpu(), k.cpus, old(k.envs), k.envs, k.g, k.boot, k.mem);
  }

  /** env_free of an environment that no CPU runs. */
  method FreeOther(k: Kernel, c: nat, e: nat)
    requires Inside(k, c) && e < NENV == |k.envs| && k.envs[e].status != Free && !OnCpu(k.envs[e].status)
    requires k.cpus[c].env != Some(e)
    modifies k`pages, k`pageFreeList, k`mem, k`free, k`tlbs, k`g, k`envs, k`envFreeList, k`envFree, k`cpus
    ensures Inside(k, c) && k.g == WithoutEnv(old(k.g), e) && k.cpus == old(k.cpus)
    ensures SameMapped(old(k.g), k.boot, old(k.mem), k.mem)
    ensures k.envs == old(k.envs)[e := old(k.envs)[e].(pgdir := None, status := Free, link := old(k.envFreeList))]
  {
    hide Inv, EnvInv, Coherent, RunOk, MailOk, WithoutEnv, Extends, SameData, IdAfter, LoadedHereOnly, LogOk,
         SameMapped;
    CurrentIsLive(k, c);
    NotElsewhere(k.envs, k.cpus, c, k.boot.kern, e);
    DirectoryHereOnly(k, c, e);
    EnvFree(k, c, e);
    DataIsMapped(old(k.C()), old(k.g), old(k.mem), k.boot, k.mem);
    OffCpuChangeKeeps(old(k.envs), k.cpus, c, k.boot.kern, e, k.envs[e]);
    MailKeeps(old(k.envs), k.mail, k.allocs, k.sent, e, k.envs[e]);
  }

  /** A directory is loaded by no CPU but that of its environment. */
  lemma DirectoryHereOnly(k: Kernel, c: nat, e: nat)
    requires SystemInv(k) && c < |k.cpus| && e < NENV == |k.envs| && k.envs[e].status != Free
    requires k.cpus[c].env == Some(e) || !IsCurrent(k.cpus, e)
    ensures LoadedHereOnly(k.cpus, c, e, k.envs[e].pgdir)
  {
    hide MailOk, CountInv, Match, IdAfter;
    SlotInUse(k.envs, k.envFreeList, k.envFree, k.allocs, k.g, e);
    DirectoryIsNotKern(k.C(), k.g, k.mem, k.boot, e);
    forall c' | 0 <= c' < |k.cpus| && Some(k.cpus[c'].cr3) == k.envs[e].pgdir
      ensures c' == c && k.cpus[c'].env == Some(e)
    {
      assert CpuOk(k.cpus[c'], c', k.lock, k.envs, k.boot.kern);
      SlotInUse(k.envs, k.envFreeList, k.envFree, k.allocs, k.g, k.cpus[c'].env.value);
    }
  }

  lemma NotElsewhere(envs: seq<Env>, cpus: seq<Cpu>, c: nat, kern: nat, e: nat)
    requires RunOk(envs, cpus, Some(c), kern) && e < NENV && !OnCpu(envs[e].status)
    requires c < |cpus| && cpus[c].env != Some(e)
    ensures !IsCurrent(cpus, e)
  {
    OffEveryCpu(envs, cpus, c, kern, e);
  }

  lemma NotWoken(envs: seq<Env>, mail: seq<History>, allocs: seq<nat>, sent: seq<Delivery>, e: nat)
    requires MailOk(envs, mail, allocs, sent) && e < NENV && OnCpu(envs[e].status)
    ensures !Woken(mail[e])
  {
  }

  /** env_free of the current environment, and `curenv = NULL`. */
  method FreeCurrent(k: Kernel, c: nat, e: nat)
    requires SystemInv(k) && c < |k.cpus| && k.lock == Some(c) && e < NENV == |k.envs|
    requires k.cpus[c].env == Some(e) && k.envs[e].status != Free
    modifies k`pages, k`pageFreeList, k`mem, k`free, k`tlbs, k`g, k`envs, k`envFreeList, k`envFree, k`cpus, k`log
    ensures Inside(k, c)
    ensures k.g == WithoutEnv(old(k.g), e)
    ensures SameMapped(old(k.g), k.boot, old(k.mem), k.mem)
    ensures k.envs == old(k.envs)[e := old(k.envs)[e].(pgdir := None, status := Free, link := old(k.envFreeList))]
    ensures k.cpus == old(k.cpus)[c := old(k.cpus)[c].(cr3 := k.boot.kern, env := None)]
    ensures c < |old(k.log)| && k.log == old(k.log)[c := old(k.log)[c] + [Lost]] && Forward(old(k.log), k.log)
  {
    hide Inv, EnvInv, Coherent, RunOk, MailOk, WithoutEnv, Extends, SameData, IdAfter, LoadedHereOnly, LogOk, TurnsOk,
         HasAfter, Forward, SameMapped;
    LogOf(k.log, k.cpus, c);
    NextTurn(k.log[c], Lost);
    LogKeeps(k.log, k.cpus, c, k.cpus[c].(cr3 := k.boot.kern, env := None), k.log[c] + [Lost]);
    OneForward(k.log, c, k.log[c] + [Lost]);
    DirectoryHereOnly(k, c, e);
    EnvFree(k, c, e);
    DataIsMapped(old(k.C()), old(k.g), old(k.mem), k.boot, k.mem);
    IdleKeepsCoherence(k.tlbs, k.ThisCpu(), k.cpus, c, k.envs, k.g, k.boot, k.mem);
    k.cpus := k.cpus[c := k.cpus[c].(env := None)];
    assert k.cpus == old(k.cpus)[c := old(k.cpus)[c].(cr3 := k.boot.kern, env := None)];
    k.log := k.log[c := k.log[c] + [Lost]];
    FreeCurrentKeeps(old(k.envs), old(k.cpus), c, k.boot.kern, e, k.envs[e]);
    MailKeeps(old(k.envs), k.mail, k.allocs, k.sent, e, k.envs[e]);
  }

  const USER_ACCESS := NO_FLAGS.(u := true)

  /** user_mem_check panics. */
  ghost predicate CheckPanics(m: seq<Frame>, d: nat, va: nat, len: nat, perm: Flags) {
    d < |m| && BelowUlim(va, len) && Decided(m, d, va, va + len, perm, LookupPanic)
  }

  /** There is one verdict. */
  lemma PanicIsTheVerdict(m: seq<Frame>, d: nat, va: nat, len: nat, perm: Flags, v: Verdict)
    requires d < |m| && (if BelowUlim(va, len) then Decided(m, d, va, va + len, perm, v) else v.Fault?)
    ensures v.LookupPanic? <==> CheckPanics(m, d, va, len, perm)
  {
  }

  /** The string ends below ULIM, and every byte of it below UTOP is in a page that `e` has for the user. */
  ghost predicate Readable(g: Graph, e: nat, s: nat, len: nat) {
    s + len < ULIM && forall a: nat | s <= a < s + len && a < UTOP :: At(e, a) in g && g[At(e, a)].flags.u
  }

  lemma AllowedIsReadable(k: Kernel, e: nat, s: nat, len: nat)
    requires k.PageInv(NOTHING) && k.EnvsInv() && e < NENV == |k.envs| && k.envs[e].status != Free
    requires k.envs[e].pgdir.Some? && k.envs[e].pgdir.value < |k.mem| && BelowUlim(s, len)
    requires AllPassed(k.mem, k.envs[e].pgdir.value, s, s + len, USER_ACCESS)
    ensures Readable(k.g, e, s, len)
  {
    hide Inv, EnvInv, HasTable;
    forall a: nat | s <= a < s + len && a < UTOP ensures At(e, a) in k.g && k.g[At(e, a)].flags.u {
      assert Accessible(k.mem, k.envs[e].pgdir.value, a, USER_ACCESS);
      EntryIsInGraph(k, e, a);
    }
  }

  /** sys_cputs up to the printing, which is output: user_mem_assert looks at every byte of the string and destroys the
      caller if it may not read one of them. */
  method Cputs(k: Kernel, c: nat, s: nat, len: nat) returns (r: Ending)
    requires Serving(k, c) && s < ADDRESS_LIMIT && len < ADDRESS_LIMIT
    requires k.cpus[c].env.value < NENV == |k.envs|
    requires k.envs[k.cpus[c].env.value].pgdir.Some? && k.envs[k.cpus[c].env.value].pgdir.value < |k.mem|
    modifies k`pages, k`pageFreeList, k`mem, k`free, k`tlbs, k`g, k`envs, k`envFreeList, k`envFree, k`cpus, k`lock,
             k`mail, k`log
    ensures r.Returns? <==>
      BelowUlim(s, len) && AllPassed(old(k.mem), old(k.envs)[old(k.cpus)[c].env.value].pgdir.value, s, s + len,
                USER_ACCESS)
    ensures r.Over? <==>
      var cur := old(k.cpus)[c].env.value; var d := old(k.envs)[cur].pgdir.value;
      || CheckPanics(old(k.mem), d, s, len, USER_ACCESS)
      || (!(BelowUlim(s, len) && AllPassed(old(k.mem), d, s, s + len, USER_ACCESS)) && NothingElse(old(k.envs), cur))
    ensures r.Returns? ==>
      && r == Returns(0) && Serving(k, c) && k.g == old(k.g) && k.mem == old(k.mem) && k.envs == old(k.envs)
      && k.cpus == old(k.cpus) && k.mail == old(k.mail) && k.log == old(k.log)
      && Readable(k.g, k.cpus[c].env.value, s, len)
    ensures r.Left? ==>
      LeftFor(SystemCall(CputsCall(s, len)), old(k.cpus)[c].env.value, old(k.envFreeList), old(k.envs), old(k.cpus),
              old(k.log), c, k.envs, k.cpus, k.log)
    ensures SameMapped(old(k.g), k.boot, old(k.mem), k.mem)
    ensures r.Left? ==> SystemInv(k) && k.lock == None && k.g == WithoutEnv(old(k.g), old(k.cpus)[c].env.value)
    ensures Grows(old(k.envs), old(k.mail), k.envs, k.mail, None) && Forward(old(k.log), k.log)
  {
    hide Inv, EnvInv, Coherent, RunOk, MailOk, WithoutEnv, IdAfter, Scheduled, Grows, LogOk, Forward, SameMapped,
         Rescheduled;
    SameMappedRefl(k.C(), k.g, k.mem, k.boot, NOTHING);
    SameForward(k.log);
    var curenv := k.cpus[c].env.value;
    Extent(k.C(), k.g, k.mem, k.boot, NOTHING);
    MailSizes(k.envs, k.mail, k.allocs, k.sent);
    SameGrows(k.envs, k.envs, k.mail, None);
    var v := UserMemCheck(k, curenv, s, len, USER_ACCESS);
    PanicIsTheVerdict(k.mem, k.envs[curenv].pgdir.value, s, len, USER_ACCESS, v);
    match v
    case Allowed =>
      CurrentIsLive(k, c);
      AllowedIsReadable(k, curenv, s, len);
      return Returns(0);
    case LookupPanic =>
      return Over;
    case Fault(_) =>
      CurrentIsLive(k, c);
      r := EnvDestroy(k, c, curenv);
  }

  lemma CallerDirectory(k: Kernel, c: nat)
    requires Serving(k, c)
    ensures |k.envs| == NENV && k.cpus[c].env.value < NENV
    ensures k.envs[k.cpus[c].env.value].pgdir.Some? && k.envs[k.cpus[c].env.value].pgdir.value < |k.mem|
  {
    hide Inv, EnvInv, RunOk, MailOk, Coherent, IdAfter;
    CurrentIsLive(k, c);
    Sizes(k.C(), k.g, k.mem, k.boot, NOTHING);
    SlotInUse(k.envs, k.envFreeList, k.envFree, k.allocs, k.g, k.cpus[c].env.value);
  }

  /** The stores of sys_ipc_recv: the caller waits for a message, with or without a page at `dstva`. */
  method Block(k: Kernel, c: nat, dstva: nat)
    requires c < |k.cpus| && k.cpus[c].env.Some? && k.cpus[c].env.value < NENV == |k.envs| == |k.mail|
    requires Serving(k, c) && (dstva < UTOP ==> dstva % PGSIZE == 0)
    modifies k`envs, k`mail
    ensures
      var cur := k.cpus[c].env.value;
      && k.envs == old(k.envs)[cur := old(k.envs)[cur].(dstva := dstva, recving := true, status := NotRunnable)]
      && k.mail == old(k.mail)[cur := old(k.mail)[cur] + [Asked]]
    ensures Inside(k, c)
  {
    hide Inv, EnvInv, Coherent, RunOk, MailOk, BoxOk, IdAfter, LogOk;
    MailSizes(k.envs, k.mail, k.allocs, k.sent);
    var cur := k.cpus[c].env.value;
    ghost var v := k.envs[cur].(dstva := dstva, recving := true, status := NotRunnable);
    RunningIsNotReceiving(k, cur);
    AskKeeps(k.envs, k.mail, k.allocs, k.sent, cur, v);
    SlotAligned(k.envs, k.envFreeList, k.envFree, k.allocs, k.g, cur);
    SlotChanged(k.envs, k.envFreeList, k.envFree, k.allocs, k.g, cur, v);
    OffCpuChangeKeeps(k.envs, k.cpus, c, k.boot.kern, cur, v);
    k.envs := k.envs[cur := k.envs[cur].(dstva := dstva, recving := true, status := NotRunnable)];
    EnvsKeepCoherence(k.tlbs, k.ThisCpu(), k.cpus, old(k.envs), k.envs, k.g, k.boot, k.mem);
    k.mail := k.mail[cur := k.mail[cur] + [Asked]];
  }

  /** sys_ipc_recv: the caller blocks and gives up the CPU. */
  method SysIpcRecv(k: Kernel, c: nat, dstva: nat) returns (r: Ending)
    requires Serving(k, c) && k.cpus[c].env.value < NENV
    modifies k`envs, k`cpus, k`lock, k`mail, k`tlbs, k`log
    ensures dstva < UTOP && dstva % PGSIZE != 0 ==>
      && r == Returns(E_INVAL) && Serving(k, c) && k.envs == old(k.envs) && k.cpus == old(k.cpus)
      && k.mail == old(k.mail) && k.log == old(k.log)
    ensures !(dstva < UTOP && dstva % PGSIZE != 0) ==> !r.Returns?
    ensures r.Over? <==>
      !(dstva < UTOP && dstva % PGSIZE != 0) && NothingElse(old(k.envs), old(k.cpus)[c].env.value)
    ensures Grows(old(k.envs), old(k.mail), k.envs, k.mail, old(k.cpus)[c].env) && Forward(old(k.log), k.log)
    ensures r.Left? ==>
      LeftFor(SystemCall(RecvCall(dstva)), old(k.cpus)[c].env.value, old(k.envFreeList), old(k.envs), old(k.cpus),
              old(k.log), c, k.envs, k.cpus, k.log)
    ensures r.Left? ==>
      && SystemInv(k) && k.lock == None
      && Blocks(old(k.envs), old(k.mail), k.envs, k.mail, old(k.cpus)[c].env.value, dstva)
  {
    hide Inv, EnvInv, Coherent, RunOk, MailOk, BoxOk, IdAfter, Scheduled, Grows, LogOk, Forward, Touched, Rescheduled;
    MailSizes(k.envs, k.mail, k.allocs, k.sent);
    SameGrows(k.envs, k.envs, k.mail, k.cpus[c].env);
    SameForward(k.log);
    if dstva < UTOP && dstva % PGSIZE != 0 {
      return Returns(E_INVAL);
    }
    Block(k, c, dstva);
    ghost var cur, envs, mail := k.cpus[c].env.value, k.envs, k.mail;
    OneGrows(old(k.envs), envs, old(k.mail), cur, mail[cur], Some(cur));
    LastOne(old(k.envs), cur, envs[cur]);
    r := YieldCpu(k, c);
    AnyGrows(envs, mail, k.envs, k.mail, Some(cur));
    ThenGrows(old(k.envs), old(k.mail), envs, mail, k.envs, k.mail, Some(cur));
    if r.Left? {
      StaysBlocked(envs, old(k.cpus), mail, old(k.log), k.envs, k.cpus, k.mail, k.log, c, k.boot.kern);
    }
  }

  /** The caller of sys_ipc_recv is blocked and has asked, whoever runs next. */
  ghost predicate Blocks(envs: seq<Env>, mail: seq<History>, envs': seq<Env>, mail': seq<History>, cur: nat,
                         dstva: nat) {
    && cur < |envs| == |envs'| == |mail| == |mail'|
    && envs'[cur] == envs[cur].(dstva := dstva, recving := true, status := NotRunnable)
       && mail'[cur] == mail[cur] + [Asked]
  }

  /** The scheduler passes over the CPU's own environment if that is blocked. */
  lemma StaysBlocked(envs: seq<Env>, cpus: seq<Cpu>, mail: seq<History>, log: seq<seq<Turn>>, envs': seq<Env>,
                     cpus': seq<Cpu>, mail': seq<History>, log': seq<seq<Turn>>, c: nat, kern: nat)
    requires |envs| == |mail| == NENV && c < |cpus| && cpus[c].env.Some? && cpus[c].env.value < NENV
    requires Scheduled(envs, cpus, mail, log, envs', cpus', mail', log', c, kern)
    requires envs[cpus[c].env.value].status == NotRunnable
    ensures |envs'| == |mail'| == NENV
    ensures envs'[cpus[c].env.value] == envs[cpus[c].env.value] && mail'[cpus[c].env.value] == mail[cpus[c].env.value]
  {
    hide Returned, HasAfter;
  }

  lemma InSyscallWhileServing(k: Kernel, c: nat)
    requires Serving(k, c)
    ensures InSyscall(k, c)
  {
    hide Inv, EnvInv, MailOk;
    CurrentIsLive(k, c);
  }

  /** A sys_ipc_try_send to `t` that returns: after success the receiver is woken with the message in its fields, one
      more event in its history, and perhaps the page; a failure leaves maps and histories alone. */
  ghost predicate SendServed(cur: nat, t: Option<nat>, value: nat, srcva: nat, perm: Word, code: int, g: Graph,
                             free: nat,
                             envs: seq<Env>, mail: seq<History>, g': Graph, envs': seq<Env>, mail': seq<History>)
  {
    && cur < |envs| == |mail| == NENV && (t.Some? ==> t.value < NENV)
    && Ret(code) == TrySendResult(g, free, envs, cur, t, srcva, perm)
    && if code != 0 then g' == g && mail' == mail && envs' == EnvsAfterFailedSend(envs, t, code)
       else
         && t.Some? && envs[t.value].recving
         && envs' == EnvsAfterSend(envs, cur, t.value, value, srcva, perm)
         && mail' == mail[t.value := mail[t.value] + [Sent(Message(value, envs[cur].id))]]
         && HandedOver(g, g', cur, t.value, srcva, envs[t.value].dstva, perm)
  }

  /** Success is one more delivery, from `cur` to `t`, which waited, and one more event of `t`; failure is neither. */
  ghost predicate SendLogged(cur: nat, t: Option<nat>, value: nat, code: int, envs: seq<Env>, mail: seq<History>,
                             allocs: seq<nat>, sent: seq<Delivery>, mail': seq<History>, sent': seq<Delivery>)
  {
    if code == 0 then
      && cur < |envs| == |allocs| == |mail| && t.Some? && t.value < |envs|
      && envs[t.value].status != Free && envs[t.value].recving
      && var m := Message(value, envs[cur].id);
        && mail' == mail[t.value := mail[t.value] + [Sent(m)]]
        && sent' == sent + [Delivery(Party(cur, allocs[cur]), Party(t.value, allocs[t.value]), m)]
    else mail' == mail && sent' == sent
  }

  /** A delivery is entered into the receiver's history and the list of all deliveries. */
  ghost method RecordDelivery(k: Kernel, c: nat, cur: nat, t: nat, envs: seq<Env>)
    requires RunOk(envs, k.cpus, Some(c), k.boot.kern) && MailOk(envs, k.mail, k.allocs, k.sent)
    requires |envs| == |k.mail| == |k.allocs| == NENV && t < NENV && cur < NENV && c < |k.cpus|
    requires k.cpus[c].env == Some(cur) && envs[cur].status == Running
    requires envs[t].status != Free && envs[t].recving && |k.envs| == NENV && k.envs == envs[t := k.envs[t]]
    requires !k.envs[t].recving && k.envs[t].status == Runnable && k.envs[t].tf == envs[t].tf.(eax := 0)
    modifies k`mail, k`sent
    ensures RunOk(k.envs, k.cpus, Some(c), k.boot.kern) && MailOk(k.envs, k.mail, k.allocs, k.sent)
    ensures Grows(envs, old(k.mail), k.envs, k.mail, None) && t != cur
    ensures var m := Message(k.envs[t].value, k.envs[t].from);
      && k.mail == old(k.mail)[t := old(k.mail)[t] + [Sent(m)]]
      && k.sent == old(k.sent) + [Delivery(Party(cur, k.allocs[cur]), Party(t, k.allocs[t]), m)]
  {
    hide RunOk, MailOk, BoxOk, Grows;
    ReceiverIsBlocked(envs, k.cpus, c, k.boot.kern, t);
    OffCpuChangeKeeps(envs, k.cpus, c, k.boot.kern, t, k.envs[t]);
    ghost var m := Message(k.envs[t].value, k.envs[t].from);
    SendKeeps(envs, k.mail, k.allocs, k.sent, Party(cur, k.allocs[cur]), t, k.envs[t]);
    k.mail := k.mail[t := k.mail[t] + [Sent(m)]];
    k.sent := k.sent + [Delivery(Party(cur, k.allocs[cur]), Party(t, k.allocs[t]), m)];
    OneGrows(envs, k.envs, old(k.mail), t, k.mail[t], None);
  }

  /** sys_ipc_try_send. */
  method TrySend(k: Kernel, c: nat, envid: int, value: nat, srcva: nat, perm: Word) returns (r: Ending)
    requires Serving(k, c) && srcva < ADDRESS_LIMIT
    requires k.cpus[c].env.Some? && k.cpus[c].env.value < NENV == |k.envs|
    requires RoomToSend(k, k.cpus[c].env.value, Resolve(k.envs, k.cpus[c].env.value, envid, false), srcva, perm)
    modifies k`pages, k`pageFreeList, k`mem, k`free, k`tlbs, k`g, k`envs, k`mail, k`sent
    ensures !r.Left? && (!r.Returns? ==> k.sent == old(k.sent))
    ensures r.Over? <==>
      TrySendResult(old(k.g), |old(k.free)|, old(k.envs), k.cpus[c].env.value,
                    Resolve(old(k.envs), k.cpus[c].env.value, envid, false), srcva, perm) == NullPage
    ensures r.Returns? ==> SameMapped(old(k.g), k.boot, old(k.mem), k.mem)
    ensures r.Returns? ==> Serving(k, c) && Grows(old(k.envs), old(k.mail), k.envs, k.mail, None)
    ensures r.Returns? ==>
      var cur := k.cpus[c].env.value; var t := Resolve(old(k.envs), cur, envid, false);
      && SendServed(cur, t, value, srcva, perm, r.code, old(k.g), |old(k.free)|, old(k.envs), old(k.mail), k.g, k.envs,
                    k.mail)
      && SendLogged(cur, t, value, r.code, old(k.envs), old(k.mail), k.allocs, old(k.sent), k.mail, k.sent)
      && (r.code != 0 ==> k.C() == old(k.C()) && k.mem == old(k.mem))
  {
    hide Inv, EnvInv, Coherent, RunOk, MailOk, BoxOk, IdAfter, TransferResult, HandedOver, SameMapped, Grows,
         LogOk;
    InSyscallWhileServing(k, c);
    SameMappedRefl(k.C(), k.g, k.mem, k.boot, NOTHING);
    MailSizes(k.envs, k.mail, k.allocs, k.sent);
    ghost var cur, envs := k.cpus[c].env.value, k.envs;
    ghost var t := Resolve(k.envs, cur, envid, false);
    ResolvedIsLive(k, c, envid, false);
    SendNeverPanics(k.g, |k.free|, k.envs, cur, t, srcva, perm);
    var s := SysIpcTrySend(k, c, envid, value, srcva, perm);
    if !s.Ret? {
      return Over;
    }
    if s.code == 0 {
      RecordDelivery(k, c, cur, t.value, envs);
    } else if t == None || s.code == E_IPC_NOT_RECV {
      SameGrows(envs, k.envs, k.mail, None);
    } else {
      SameGrows(envs, k.envs, k.mail, None);
      OtherFieldsKeep(envs, k.envs, k.cpus, k.lock, k.boot.kern);
      MailKeeps(envs, k.mail, k.allocs, k.sent, t.value, k.envs[t.value]);
    }
    return Returns(s.code);
  }

  /** An environment that waits for a message is blocked, and on no CPU. */
  lemma ReceiverIsBlocked(envs: seq<Env>, cpus: seq<Cpu>, c: nat, kern: nat, t: nat)
    requires RunOk(envs, cpus, Some(c), kern) && t < NENV && envs[t].status != Free && envs[t].recving
    requires c < |cpus| && cpus[c].env.Some? ==> cpus[c].env.value < NENV && envs[cpus[c].env.value].status == Running
    ensures envs[t].status == NotRunnable && !IsCurrent(cpus, t)
  {
    OffEveryCpu(envs, cpus, c, kern, t);
  }

  predicate SlotFree(envs: seq<Env>) { exists e :: 0 <= e < |envs| && envs[e].status == Free }

  lemma FreeListTells(envs: seq<Env>, head: Option<nat>, list: seq<nat>, allocs: seq<nat>, g: Graph)
    requires EnvInv(envs, head, list, allocs, g)
    ensures SlotFree(envs) <==> list != []
  {
    EnvSizes(envs, head, list, allocs, g);
  }

  /** A sys_exofork that returns: a child of the caller that waits with the caller's registers but 0 in eax and sees the
      screen only, or an error and no change. */
  ghost predicate ForkServed(code: int, cur: nat, g: Graph, free: nat, envs: seq<Env>, mail: seq<History>, g': Graph,
                             envs': seq<Env>, mail': seq<History>)
  {
    if code < 0 then
      && g' == g && envs' == envs && mail' == mail
      && if SlotFree(envs) then code == E_NO_MEM && free == 0 else code == E_NO_FREE_ENV
    else
      var child := EnvX(code);
      && cur < |envs| == |envs'| == |mail| == NENV
      && OthersSame(envs, envs', child) && mail' == mail[child := []] && envs[child].status == Free
      && Born(g, g', child)
      && envs'[child].id == code && envs'[child].status == NotRunnable && !envs'[child].recving
      && envs'[child].parent == envs[cur].id && envs'[child].tf == Trapframe(0, envs[cur].tf.rest)
  }

  /** A new environment starts without a history. */
  ghost method RecordBirth(k: Kernel, c: nat, child: nat, envs: seq<Env>, allocs: seq<nat>)
    requires RunOk(envs, k.cpus, Some(c), k.boot.kern) && MailOk(envs, k.mail, allocs, k.sent)
    requires |envs| == |k.mail| == |allocs| == NENV && child < NENV && c < |k.cpus|
    requires envs[child].status == Free && |k.envs| == NENV && k.envs == envs[child := k.envs[child]]
    requires !k.envs[child].recving && k.envs[child].status == NotRunnable
    requires k.allocs == allocs[child := allocs[child] + 1]
    modifies k`mail
    ensures RunOk(k.envs, k.cpus, Some(c), k.boot.kern) && MailOk(k.envs, k.mail, k.allocs, k.sent)
    ensures Grows(envs, old(k.mail), k.envs, k.mail, None) && SameAllocs(envs, allocs, k.allocs)
    ensures k.mail == old(k.mail)[child := []]
  {
    hide RunOk, MailOk, BoxOk, Grows, SameAllocs;
    FreeIsOnNoCpu(envs, k.cpus, c, k.boot.kern, child);
    OffCpuChangeKeeps(envs, k.cpus, c, k.boot.kern, child, k.envs[child]);
    BirthKeeps(envs, k.mail, allocs, k.sent, child, k.envs[child]);
    k.mail := k.mail[child := []];
    OneGrows(envs, k.envs, old(k.mail), child, [], None);
    AllocatedAnew(envs, allocs, child);
  }

  /** sys_exofork. */
  method Exofork(k: Kernel, c: nat) returns (r: Ending)
    requires Serving(k, c) && ScreenHasRoom(k)
    modifies k`pages, k`pageFreeList, k`mem, k`free, k`tlbs, k`g, k`envs, k`envFreeList, k`envFree, k`allocs, k`mail
    ensures !r.Left?
    ensures r.Over? <==> old(k.envFree) != [] && |old(k.free)| == 1
    ensures r.Returns? ==> Serving(k, c) && Grows(old(k.envs), old(k.mail), k.envs, k.mail, None)
    ensures r.Returns? ==> SameMapped(old(k.g), k.boot, old(k.mem), k.mem)
    ensures r.Returns? ==> SameAllocs(old(k.envs), old(k.allocs), k.allocs)
    ensures r.Returns? ==>
      k.cpus[c].env.Some?
      && ForkServed(r.code, k.cpus[c].env.value, old(k.g), |old(k.free)|, old(k.envs), old(k.mail), k.g, k.envs,
                    k.mail)
  {
    hide Inv, EnvInv, Coherent, RunOk, MailOk, BoxOk, IdAfter, Remapped, SameMapped, Grows, LogOk, SameAllocs, SlotOk,
         Flat, SlotFree;
    InSyscallWhileServing(k, c);
    SameMappedRefl(k.C(), k.g, k.mem, k.boot, NOTHING);
    MailSizes(k.envs, k.mail, k.allocs, k.sent);
    EnvSizes(k.envs, k.envFreeList, k.envFree, k.allocs, k.g);
    FreeListTells(k.envs, k.envFreeList, k.envFree, k.allocs, k.g);
    AllocsKept(k.envs, k.allocs);
    var s := SysExofork(k, c);
    if !s.Ret? {
      return Over;
    }
    if s.code < 0 {
      SameGrows(old(k.envs), k.envs, k.mail, None);
    } else {
      ghost var child := old(k.envFree)[0];
      RecordBirth(k, c, child, old(k.envs), old(k.allocs));
      SlotInUse(k.envs, k.envFreeList, k.envFree, k.allocs, k.g, child);
      LiveIds(k.envs, k.envFreeList, k.envFree, k.allocs, k.g, child, child);
    }
    return Returns(s.code);
  }

  /** No live environment's slot is allocated anew. */
  ghost predicate SameAllocs(envs: seq<Env>, allocs: seq<nat>, allocs': seq<nat>) {
    && |envs| == |allocs| == |allocs'| == NENV
    && forall e | 0 <= e < NENV && envs[e].status != Free :: allocs'[e] == allocs[e]
  }

  lemma AllocatedAnew(envs: seq<Env>, allocs: seq<nat>, e: nat)
    requires |envs| == |allocs| == NENV && e < NENV && envs[e].status == Free
    ensures SameAllocs(envs, allocs, allocs[e := allocs[e] + 1])
  {
  }

  lemma AllocsKept(envs: seq<Env>, allocs: seq<nat>)
    requires |envs| == |allocs| == NENV
    ensures SameAllocs(envs, allocs, allocs)
  {
  }

  lemma FreeIsOnNoCpu(envs: seq<Env>, cpus: seq<Cpu>, c: nat, kern: nat, e: nat)
    requires RunOk(envs, cpus, Some(c), kern) && e < NENV && envs[e].status == Free
    ensures !IsCurrent(cpus, e)
  {
    OffEveryCpu(envs, cpus, c, kern, e);
  }

  /** The uses of sys_env_set_status that keep the run invariant, by RunState.StatusKeepsExactly: on the caller, or on
      an environment that no CPU runs, and making no environment RUNNABLE that waits for a message. */
  predicate StatusAdmitted(envs: seq<Env>, cpus: seq<Cpu>, cur: nat, envid: int, status: Status)
    requires cur < NENV == |envs|
  {
    var t := Resolve(envs, cur, envid, true);
    t.Some? && (status == Runnable || status == NotRunnable) ==>
      (IsCurrent(cpus, t.value) ==> t.value == cur) && (envs[t.value].recving ==> status == NotRunnable)
  }

  ghost predicate StatusSet(envs: seq<Env>, envs': seq<Env>, cur: nat, envid: int, status: Status, code: int)
    requires cur < NENV == |envs|
  {
    var t := Resolve(envs, cur, envid, true);
    && code == (if status != Runnable && status != NotRunnable then E_INVAL else if t == None then E_BAD_ENV else 0)
    && envs' == if code == 0 then envs[t.value := envs[t.value].(status := status)] else envs
  }

  lemma StatusSizes(envs: seq<Env>, envs': seq<Env>, cur: nat, envid: int, status: Status, code: int)
    requires cur < NENV == |envs| && StatusSet(envs, envs', cur, envid, status, code)
    ensures |envs'| == NENV
  {
  }

  /** sys_env_set_status, where it keeps the run invariant. */
  method SetStatus(k: Kernel, c: nat, envid: int, status: Status) returns (r: Ending)
    requires c < |k.cpus| && k.cpus[c].env.Some? && k.cpus[c].env.value < NENV == |k.envs|
    requires Serving(k, c) && StatusAdmitted(k.envs, k.cpus, k.cpus[c].env.value, envid, status)
    modifies k`envs
    ensures Inside(k, c) && r.Returns?
    ensures k.cpus[c].env.value < NENV == |old(k.envs)|
    ensures StatusSet(old(k.envs), k.envs, k.cpus[c].env.value, envid, status, r.code)
  {
    hide Inv, EnvInv, Coherent, RunOk, MailOk, BoxOk, IdAfter;
    InSyscallWhileServing(k, c);
    ghost var cur := k.cpus[c].env.value;
    RunningIsNotReceiving(k, cur);
    ResolvedIsLive(k, c, envid, true);
    ghost var t := Resolve(k.envs, cur, envid, true);
    var rc := SysEnvSetStatus(k, c, envid, status);
    if rc == 0 {
      StatusKeepsExactly(old(k.envs), k.cpus, c, k.boot.kern, t.value, status);
      MailKeeps(old(k.envs), k.mail, k.allocs, k.sent, t.value, k.envs[t.value]);
    }
    return Returns(rc);
  }

  /** The system calls on pages leave environments, CPUs and messages alone. */
  lemma PagesOnly(k: Kernel, c: nat, envs: seq<Env>, cpus: seq<Cpu>, mail: seq<History>)
    requires InSyscall(k, c) && k.lock == Some(c)
    requires k.envs == envs && k.cpus == cpus && k.mail == mail
    requires RunOk(envs, cpus, Some(c), k.boot.kern) && MailOk(envs, mail, k.allocs, k.sent) && LogOk(k.log, cpus)
    requires k.cpus[c].env.Some? && k.envs[k.cpus[c].env.value].status == Running
    requires |cpus| == 1 ==> k.TlbOk()
    ensures Serving(k, c)
  {
  }

  /** lock_kernel() in trap(), once the lock is free: from user mode with the registers saved, unless the environment
      has become a zombie meanwhile, which is collected; from a halt without an environment. */
  method Enter(k: Kernel, c: nat, tf: Trapframe) returns (serving: bool)
    requires SystemInv(k) && c < |k.cpus| && k.cpus[c].place == Waiting && k.lock == None
    modifies k`pages, k`pageFreeList, k`mem, k`free, k`tlbs, k`g, k`envs, k`envFreeList, k`envFree, k`cpus, k`lock,
             k`log
    ensures serving ==> Serving(k, c)
    ensures !serving ==> Inside(k, c) && k.cpus[c].env == None
    ensures SameMapped(old(k.g), k.boot, old(k.mem), k.mem)
    ensures var cur := old(k.cpus)[c].env;
      && (cur.Some? ==> cur.value < |old(k.envs)|)
      && (serving <==> cur.Some? && old(k.envs)[cur.value].status != Dying)
      && (cur.Some? && !serving ==> k.g == WithoutEnv(old(k.g), cur.value))
      && (if serving then true else if cur.Some? then
            OthersSame(old(k.envs), k.envs, cur.value) && k.envs[cur.value].status == Free
          else k.envs == old(k.envs))
      && (serving ==>
            && k.cpus[c] == old(k.cpus)[c].(place := InKernel)
            && k.envs == old(k.envs)[cur.value := old(k.envs)[cur.value].(tf := tf)])
      && |k.cpus| == |old(k.cpus)| == |k.log| == |old(k.log)|
      && k.cpus == old(k.cpus)[c := k.cpus[c]] && k.log == old(k.log)[c := k.log[c]]
      && k.cpus[c].env == (if serving then cur else None)
      && k.log[c] == old(k.log)[c] + (if cur.Some? && !serving then [Lost] else [])
      && NoNewWriter(old(k.g), k.g) && Forward(old(k.log), k.log)
      && (|k.mail| == NENV ==> Grows(old(k.envs), k.mail, k.envs, k.mail, cur))
      && (serving || cur == None ==> k.C() == old(k.C()) && k.g == old(k.g) && k.mem == old(k.mem))
  {
    hide Inv, EnvInv, Coherent, RunOk, MailOk, BoxOk, WithoutEnv, SameData, Extends, IdAfter, NoNewWriter, LogOk,
         Forward, Grows, SameMapped, TurnsOk, HasAfter;
    MailSizes(k.envs, k.mail, k.allocs, k.sent);
    LogOf(k.log, k.cpus, c);
    SameHandsOn(k.g);
    SameForward(k.log);
    SameMappedRefl(k.C(), k.g, k.mem, k.boot, NOTHING);
    CurrentRuns(k, c);
    SameTurns(k.log, k.cpus, c, k.cpus[c].(place := InKernel));
    AcquireKeeps(k.envs, k.cpus, k.boot.kern, c);
    k.lock := Some(c);
    k.cpus := k.cpus[c := k.cpus[c].(place := InKernel)];
    PlacesKeepCoherence(k.tlbs, k.ThisCpu(), old(k.cpus), k.cpus, k.envs, k.g, k.boot, k.mem);
    var curenv := k.cpus[c].env;
    if curenv == None {
      SameGrows(old(k.envs), k.envs, k.mail, None);
      return false;
    }
    var e := curenv.value;
    if k.envs[e].status == Dying {
      DestroyHandsOn(k.g, e);
      FreeCurrent(k, c, e);
      SameGrows(old(k.envs), k.envs, k.mail, curenv);
      return false;
    }
    NotWoken(k.envs, k.mail, k.allocs, k.sent, e);
    SaveRegisters(k, e, tf);
    SameGrows(old(k.envs), k.envs, k.mail, curenv);
    return true;
  }

  /** Outside the kernel a CPU's environment is RUNNING or DYING. */
  lemma CurrentRuns(k: Kernel, c: nat)
    requires SystemInv(k) && c < |k.cpus| && k.lock == None
    ensures |k.envs| == NENV
    ensures k.cpus[c].env.Some? ==> k.cpus[c].env.value < NENV && OnCpu(k.envs[k.cpus[c].env.value].status)
  {
    hide Inv, EnvInv, MailOk;
    assert CpuOk(k.cpus[c], c, k.lock, k.envs, k.boot.kern);
  }

  /** Writing env_tf. */
  method SaveRegisters(k: Kernel, e: nat, tf: Trapframe)
    requires SystemInv(k) && e < NENV == |k.envs| == |k.mail| && k.envs[e].status != Free && !Woken(k.mail[e])
    modifies k`envs
    ensures SystemInv(k) && k.envs == old(k.envs)[e := old(k.envs)[e].(tf := tf)]
  {
    hide Inv, EnvInv, Coherent, RunOk, MailOk, BoxOk, IdAfter, LogOk, Woken;
    EnvSizes(k.envs, k.envFreeList, k.envFree, k.allocs, k.g);
    k.envs := k.envs[e := k.envs[e].(tf := tf)];
    SlotChanged(old(k.envs), k.envFreeList, k.envFree, k.allocs, k.g, e, k.envs[e]);
    OtherFieldsKeep(old(k.envs), k.envs, k.cpus, k.lock, k.boot.kern);
    MailKeeps(old(k.envs), k.mail, k.allocs, k.sent, e, k.envs[e]);
    EnvsKeepCoherence(k.tlbs, k.ThisCpu(), k.cpus, old(k.envs), k.envs, k.g, k.boot, k.mem);
  }

  /** How the CPU leaves trap(): back to its own environment if that is RUNNING, else through the scheduler. */
  ghost predicate LeftTrap(envs: seq<Env>, cpus: seq<Cpu>, log: seq<seq<Turn>>, c: nat, envs': seq<Env>,
                           cpus': seq<Cpu>, log': seq<seq<Turn>>)
  {
    && c < |cpus| && c < |log|
    && if cpus[c].env.Some? && cpus[c].env.value < |envs| && envs[cpus[c].env.value].status == Running then
         && |cpus'| == |cpus| && |envs'| == |envs| && log' == log
         && cpus'[c].env == cpus[c].env && cpus'[c].place == InUser
         && (forall c' | 0 <= c' < |cpus| && c' != c :: cpus'[c'] == cpus[c'])
         && forall e | 0 <= e < |envs| ::
              envs'[e] == envs[e].(runs := envs[e].runs + if cpus[c].env == Some(e) then 1 else 0)
       else Rescheduled(envs, cpus[c].env, log[c], cpus, log, c, envs', cpus', log')
  }

  /** The end of trap(): back to the current environment, or on to another. */
  method Leave(k: Kernel, c: nat) returns (r: Ending)
    requires Inside(k, c)
    modifies k`envs, k`cpus, k`lock, k`mail, k`tlbs, k`log
    ensures !r.Returns? && (r.Over? <==> !SomethingToRun(old(k.envs)))
    ensures r.Left? ==> SystemInv(k) && k.lock == None
    ensures r.Left? && old(k.cpus)[c].env.Some? && old(k.cpus)[c].env.value < |old(k.envs)|
            && old(k.envs)[old(k.cpus)[c].env.value].status == Running ==>
      c < |k.cpus| && k.cpus[c].place == InUser && k.cpus[c].env == old(k.cpus)[c].env
    ensures r.Left? ==>
      c < |old(k.log)| && LeftTrap(old(k.envs), old(k.cpus), old(k.log), c, k.envs, k.cpus, k.log)
    ensures k.g == old(k.g) && k.mem == old(k.mem)
    ensures Grows(old(k.envs), old(k.mail), k.envs, k.mail, None) && Forward(old(k.log), k.log)
  {
    hide Inv, EnvInv, Coherent, RunOk, MailOk, Scheduled, Grows, LogOk, TurnsOk, HasAfter, Forward, Rescheduled;
    LogOf(k.log, k.cpus, c);
    CurrentIsLive(k, c);
    MailSizes(k.envs, k.mail, k.allocs, k.sent);
    var curenv := k.cpus[c].env;
    if curenv.Some? && k.envs[curenv.value].status == Running {
      OneForward(k.log, c, k.log[c]);
      EnvRun(k, c, curenv.value, k.log[c]);
      OneGrows(old(k.envs), k.envs, old(k.mail), curenv.value, k.mail[curenv.value], None);
      assert k.log == old(k.log);
      return Left;
    }
    r := YieldCpu(k, c);
  }

  datatype Call =
    | CputsCall(s: nat, len: nat)
    | GetEnvId
    | DestroyCall(envid: int)
    | Yield
    | ExoforkCall
    | SetStatusCall(envid: int, status: Status)
    | PageAllocCall(envid: int, va: nat, perm: Word)
    | PageMapCall(srcenvid: int, srcva: nat, dstenvid: int, dstva: nat, perm: Word)
    | PageUnmapCall(envid: int, va: nat)
    | TrySendCall(envid: int, value: nat, srcva: nat, perm: Word)
    | RecvCall(dstva: nat)
    | Unknown

  datatype Cause = Breakpoint | PageFault | SystemCall(call: Call) | Spurious | Timer | Unexpected

  /** The addresses in a call's arguments are 32-bit words. */
  predicate WordsOk(call: Call) {
    match call
    case CputsCall(s, len) => s < ADDRESS_LIMIT && len < ADDRESS_LIMIT
    case PageAllocCall(_, va, _) => va < ADDRESS_LIMIT
    case PageMapCall(_, srcva, _, dstva, _) => srcva < ADDRESS_LIMIT && dstva < ADDRESS_LIMIT
    case PageUnmapCall(_, va) => va < ADDRESS_LIMIT
    case TrySendCall(_, _, srcva, _) => srcva < ADDRESS_LIMIT
    case RecvCall(dstva) => dstva < ADDRESS_LIMIT
    case _ => true
  }

  /** The part of the kernel's state that decides whether a step ends the run. */
  datatype Moment = Moment(envs: seq<Env>, cpus: seq<Cpu>, mem: seq<Frame>, g: Graph, free: nat, envFree: nat)

  ghost function Now(k: Kernel): Moment
    reads k`envs, k`cpus, k`mem, k`g, k`free, k`envFree
  {
    Moment(k.envs, k.cpus, k.mem, k.g, |k.free|, |k.envFree|)
  }

  /** The calls that end the run: where user_mem_check panics, where page_insert gets no page, where env_alloc finds
      exactly one free page; and where the caller is destroyed or blocks and nothing else can run. */
  ghost predicate CallEnds(m: Moment, cur: nat, call: Call) {
    cur < NENV == |m.envs| && WordsOk(call) &&
    match call
    case CputsCall(s, len) =>
      m.envs[cur].pgdir.Some? && m.envs[cur].pgdir.value < |m.mem| &&
      var d := m.envs[cur].pgdir.value;
      || CheckPanics(m.mem, d, s, len, USER_ACCESS)
      || (!(BelowUlim(s, len) && AllPassed(m.mem, d, s, s + len, USER_ACCESS)) && NothingElse(m.envs, cur))
    case DestroyCall(envid) => Resolve(m.envs, cur, envid, true) == Some(cur) && NothingElse(m.envs, cur)
    case ExoforkCall => m.envFree > 0 && m.free == 1
    case PageMapCall(srcenvid, srcva, dstenvid, dstva, perm) =>
      var s, t := Resolve(m.envs, cur, srcenvid, true), Resolve(m.envs, cur, dstenvid, true);
      PageMapResult(m.g, m.free, s, srcva, t, dstva, perm) == NullPage
    case TrySendCall(envid, _, srcva, perm) =>
      TrySendResult(m.g, m.free, m.envs, cur, Resolve(m.envs, cur, envid, false), srcva, perm) == NullPage
    case RecvCall(dstva) => !(dstva < UTOP && dstva % PGSIZE != 0) && NothingElse(m.envs, cur)
    case _ => false
  }

  /** The traps of environment `cur` that end the run. */
  ghost predicate TrapEnds(m: Moment, cur: nat, cause: Cause) {
    match cause
    case SystemCall(call) => CallEnds(m, cur, call)
    case PageFault => NothingElse(m.envs, cur)
    case Unexpected => NothingElse(m.envs, cur)
    case _ => false
  }

  /** The caller of a system call can go on running. */
  lemma CallerCanRun(k: Kernel, c: nat)
    requires Serving(k, c)
    ensures SomethingToRun(k.envs)
  {
    hide SystemInv;
    assert k.envs[k.cpus[c].env.value].status == Running;
  }

  /** At least two pages are free. */
  predicate TwoFree(pages: seq<PageInfo>, head: Option<nat>) {
    head.Some? && head.value < |pages| && pages[head.value].link.Some?
  }

  /** The word of environment `e` at `va`, by a walk of memory. */
  function EntryOf(k: Kernel, e: nat, va: nat): Option<Word>
    requires va < ADDRESS_LIMIT
    reads k`envs, k`mem
  {
    if e < |k.envs| && k.envs[e].pgdir.Some? && k.envs[e].pgdir.value < |k.mem| then
      EntryAt(k.mem, k.envs[e].pgdir.value, va)
    else None
  }

  predicate HasTable(k: Kernel, e: nat, va: nat)
    requires va < ADDRESS_LIMIT
    reads k`envs, k`mem
  {
    && e < |k.envs| && k.envs[e].pgdir.Some? && k.envs[e].pgdir.value < |k.mem|
    && k.mem[k.envs[e].pgdir.value][PDX(va)].flags.p
  }

  /** The page of `e` at `va`, if mapping it for `t` at `dstva` gets as far as page_insert, page_insert succeeds, and it
      is not mapped there already. */
  function SharedPage(k: Kernel, e: nat, va: nat, t: nat, dstva: nat, write: bool): Option<nat>
    requires va < ADDRESS_LIMIT && dstva < ADDRESS_LIMIT
    reads k`envs, k`mem, k`pageFreeList
  {
    var w, there := EntryOf(k, e, va), EntryOf(k, t, dstva);
    if w.Some? && (write ==> w.value.flags.w) && (HasTable(k, t, dstva) || k.pageFreeList.Some?)
       && !(there.Some? && there.value.addr == w.value.addr) then
      Some(w.value.addr)
    else None
  }

  /** The page that a call of environment `cur` counts up for a mapping beside those there are: the page shared by
      sys_page_map or sys_ipc_try_send, the screen in sys_exofork. */
  function CountsUp(k: Kernel, cur: nat, call: Call): Option<nat>
    requires cur < NENV == |k.envs| && WordsOk(call)
    reads k
  {
    match call
    case ExoforkCall => if k.envFreeList.Some? && TwoFree(k.pages, k.pageFreeList) then Some(VGA_PAGE) else None
    case PageMapCall(srcenvid, srcva, dstenvid, dstva, perm) =>
      var s, t := Resolve(k.envs, cur, srcenvid, true), Resolve(k.envs, cur, dstenvid, true);
      if s.Some? && t.Some? && UserPage(srcva) && UserPage(dstva) && PermOk(perm) then
        SharedPage(k, s.value, srcva, t.value, dstva, perm.flags.w)
      else None
    case TrySendCall(envid, _, srcva, perm) =>
      var t := Resolve(k.envs, cur, envid, false);
      if t.Some? && k.envs[t.value].recving && SendsPage(srcva, k.envs[t.value].dstva) && srcva % PGSIZE == 0
         && (perm.flags.u || perm.flags.p) && perm.addr == 0 && OnlySyscallBits(perm.flags) then
        SharedPage(k, cur, srcva, t.value, k.envs[t.value].dstva, perm.flags.w)
      else None
    case _ => None
  }

  /** The call overflows no count (PageState.IncrementKeepsExactly). */
  predicate HasRoom(k: Kernel, cur: nat, call: Call)
    requires cur < NENV == |k.envs| && WordsOk(call)
    reads k
  {
    var p := CountsUp(k, cur, call);
    p.Some? && p.value < |k.pages| ==> k.pages[p.value].ref < REF_LIMIT - 1
  }

  /** The calls admitted in a run: those that keep the run invariant (RunState.StatusKeepsExactly, DestroyKeepsExactly).
      */
  predicate Admitted(envs: seq<Env>, cpus: seq<Cpu>, cur: nat, call: Call)
    requires cur < NENV == |envs|
  {
    match call
    case SetStatusCall(envid, status) => StatusAdmitted(envs, cpus, cur, envid, status)
    case DestroyCall(envid) => var t := Resolve(envs, cur, envid, true); t.Some? ==> envs[t.value].status != Dying
    case _ => true
  }

  /** A page nobody referred to is mapped at `va`. */
  ghost predicate FreshPage(g: Graph, g': Graph, e: nat, va: nat, w: Word)
    requires va < UTOP
  {
    !Referenced(g, w.addr) && Remapped(g, g', e, va, w)
  }

  /** A new environment sees the screen and nothing else. */
  ghost predicate Born(g: Graph, g': Graph, child: nat) {
    && Dir(child) !in g && Dir(child) in g' && Flat(g, child) == map[]
    && exists d: nat :: Remapped(g[Dir(child) := Word(d, NO_FLAGS)], g', child, VGA_USER, Word(VGA_PAGE, VGA_FLAGS))
  }

  /** What a call that returns has done, seen through the flat maps, envs[] and the histories. */
  ghost predicate Served(call: Call, code: int, cur: nat, g: Graph, free: nat, envs: seq<Env>, mail: seq<History>,
                         g': Graph, envs': seq<Env>, mail': seq<History>)
    requires cur < NENV == |envs| == |mail| && WordsOk(call)
  {
    match call
    case CputsCall(s, len) => code == 0 && g' == g && envs' == envs && mail' == mail && Readable(g, cur, s, len)
    case GetEnvId => code == envs[cur].id && g' == g && envs' == envs && mail' == mail
    case DestroyCall(envid) =>
      var t := Resolve(envs, cur, envid, true);
      && mail' == mail
      && if t == None then code == E_BAD_ENV && g' == g && envs' == envs
         else
           && t.value != cur && code == 0 && OthersSame(envs, envs', t.value)
           && if envs[t.value].status == Running then envs'[t.value] == envs[t.value].(status := Dying) && g' == g
              else envs'[t.value].status == Free && g' == WithoutEnv(g, t.value)
    case Yield => false
    case ExoforkCall => ForkServed(code, cur, g, free, envs, mail, g', envs', mail')
    case SetStatusCall(envid, status) => StatusSet(envs, envs', cur, envid, status, code) && g' == g && mail' == mail
    case PageAllocCall(envid, va, perm) =>
      var t := Resolve(envs, cur, envid, true);
      && envs' == envs && mail' == mail
      && code == (if t == None then E_BAD_ENV
                  else if !UserPage(va) || !PermOk(perm) then E_INVAL
                  else if PageAvailable(g, free, t.value, va) then 0
                  else E_NO_MEM)
      && if code != 0 then g' == g
         else
           && t.Some? && UserPage(va) && PermOk(perm)
           && exists p: nat :: FreshPage(g, g', t.value, va, Word(p, perm.flags))
    case PageMapCall(srcenvid, srcva, dstenvid, dstva, perm) =>
      var s, t := Resolve(envs, cur, srcenvid, true), Resolve(envs, cur, dstenvid, true);
      && envs' == envs && mail' == mail && Ret(code) == PageMapResult(g, free, s, srcva, t, dstva, perm)
      && if code != 0 then g' == g
         else s.Some? && t.Some? && UserPage(srcva) && UserPage(dstva) && At(s.value, srcva) in g
              && Remapped(g, g', t.value, dstva, Word(g[At(s.value, srcva)].addr, perm.flags))
    case PageUnmapCall(envid, va) =>
      var t := Resolve(envs, cur, envid, true);
      && envs' == envs && mail' == mail
      && code == (if t == None then E_BAD_ENV else if !UserPage(va) then E_INVAL else 0)
      && if code != 0 then g' == g
         else t.Some? && UserPage(va) && SameDirs(g, g') && Flat(g', t.value) == Flat(g, t.value) - {PGNUM(va)}
              && forall e: nat | e != t.value :: Flat(g', e) == Flat(g, e)
    case TrySendCall(envid, value, srcva, perm) =>
      SendServed(cur, Resolve(envs, cur, envid, false), value, srcva, perm, code, g, free, envs, mail, g', envs', mail')
    case RecvCall(dstva) =>
      code == E_INVAL && dstva < UTOP && dstva % PGSIZE != 0 && g' == g && envs' == envs && mail' == mail
    case Unknown => code == E_INVAL && g' == g && envs' == envs && mail' == mail
  }

  lemma AllocBrings(c: Counts, g: Graph, b: Boot, c': Counts, g': Graph, m': seq<Frame>, t: Option<nat>, va: nat,
                    perm: Flags, rc: int)
    requires
      if rc == 0 then t.Some? && va < UTOP && ZeroedPageAt(c, g, b, c', g', m', t.value, va, perm) else g' == g
    ensures NewPagesZero(g, g', m')
    ensures rc == 0 ==> c.free != [] && FreshPage(g, g', t.value, va, Word(c.free[0], perm))
  {
    hide Remapped, NewPagesZero, WithoutEnv, Flat;
    if rc == 0 {
      RemapBrings(g, g', t.value, va, Word(c.free[0], perm), m');
    } else {
      DestroyBringsNone(g, 0, m');
    }
  }

  /** sys_page_alloc. */
  method ServePageAlloc(k: Kernel, c: nat, call: Call) returns (r: Ending)
    requires Serving(k, c) && c < |k.cpus| && k.cpus[c].env.Some? && k.cpus[c].env.value < NENV == |k.envs|
    requires WordsOk(call) && call.PageAllocCall?
    modifies k`pages, k`pageFreeList, k`mem, k`free, k`tlbs, k`g
    ensures r.Returns? && Serving(k, c) && |k.mail| == NENV
    ensures SameMapped(old(k.g), k.boot, old(k.mem), k.mem) && NewPagesZero(old(k.g), k.g, k.mem)
    ensures Served(call, r.code, k.cpus[c].env.value, old(k.g), |old(k.free)|, k.envs, k.mail, k.g, k.envs, k.mail)
  {
    hide Inv, EnvInv, Coherent, RunOk, MailOk, BoxOk, IdAfter, Remapped, SameMapped, Flat, PageAvailable, NewPagesZero,
         ZeroedPageAt, WithoutEnv, Cost;
    InSyscallWhileServing(k, c);
    MailSizes(k.envs, k.mail, k.allocs, k.sent);
    var rc := SysPageAlloc(k, c, call.envid, call.va, call.perm);
    AllocBrings(old(k.C()), old(k.g), k.boot, k.C(), k.g, k.mem, Resolve(k.envs, k.cpus[c].env.value, call.envid, true),
                call.va, call.perm.flags, rc);
    PagesOnly(k, c, old(k.envs), old(k.cpus), old(k.mail));
    return Returns(rc);
  }

  /** sys_page_map. */
  method ServePageMap(k: Kernel, c: nat, call: Call) returns (r: Ending)
    requires Serving(k, c) && c < |k.cpus| && k.cpus[c].env.Some? && k.cpus[c].env.value < NENV == |k.envs|
    requires WordsOk(call) && HasRoom(k, k.cpus[c].env.value, call) && call.PageMapCall?
    modifies k`pages, k`pageFreeList, k`mem, k`free, k`tlbs, k`g
    ensures !r.Left? && (r.Returns? ==> Serving(k, c) && |k.mail| == NENV)
    ensures r.Over? <==> CallEnds(old(Now(k)), old(k.cpus)[c].env.value, call)
    ensures !r.Over? ==> SameMapped(old(k.g), k.boot, old(k.mem), k.mem)
    ensures r.Returns? ==>
      Served(call, r.code, k.cpus[c].env.value, old(k.g), |old(k.free)|, k.envs, k.mail, k.g, k.envs, k.mail)
  {
    hide Inv, EnvInv, Coherent, RunOk, MailOk, BoxOk, IdAfter, Remapped, SameMapped, TransferResult, PageMapResult,
         Flat, Cost;
    InSyscallWhileServing(k, c);
    SameMappedRefl(k.C(), k.g, k.mem, k.boot, NOTHING);
    MailSizes(k.envs, k.mail, k.allocs, k.sent);
    ghost var cur := k.cpus[c].env.value;
    ghost var src, dst := Resolve(k.envs, cur, call.srcenvid, true), Resolve(k.envs, cur, call.dstenvid, true);
    MapCountsUp(k, c, call);
    MapSucceeds(k.g, |k.free|, src, call.srcva, dst, call.dstva, call.perm);
    MapNeverPanics(k.g, |k.free|, src, call.srcva, dst, call.dstva, call.perm);
    var s := SysPageMap(k, c, call.srcenvid, call.srcva, call.dstenvid, call.dstva, call.perm);
    if !s.Ret? {
      return Over;
    }
    PagesOnly(k, c, old(k.envs), old(k.cpus), old(k.mail));
    return Returns(s.code);
  }

  /** sys_page_unmap. */
  method ServePageUnmap(k: Kernel, c: nat, call: Call) returns (r: Ending)
    requires Serving(k, c) && c < |k.cpus| && k.cpus[c].env.Some? && k.cpus[c].env.value < NENV == |k.envs|
    requires WordsOk(call) && call.PageUnmapCall?
    modifies k`pages, k`pageFreeList, k`mem, k`free, k`tlbs, k`g
    ensures r.Returns? && Serving(k, c) && |k.mail| == NENV && SameMapped(old(k.g), k.boot, old(k.mem), k.mem)
    ensures Served(call, r.code, k.cpus[c].env.value, old(k.g), |old(k.free)|, k.envs, k.mail, k.g, k.envs, k.mail)
  {
    hide Inv, EnvInv, Coherent, RunOk, MailOk, BoxOk, IdAfter, Remapped, SameMapped, Flat, Cost;
    InSyscallWhileServing(k, c);
    SameMappedRefl(k.C(), k.g, k.mem, k.boot, NOTHING);
    MailSizes(k.envs, k.mail, k.allocs, k.sent);
    var rc := SysPageUnmap(k, c, call.envid, call.va);
    PagesOnly(k, c, old(k.envs), old(k.cpus), old(k.mail));
    return Returns(rc);
  }

  /** The system calls on pages. */
  method ServePages(k: Kernel, c: nat, call: Call) returns (r: Ending)
    requires Serving(k, c) && c < |k.cpus| && k.cpus[c].env.Some? && k.cpus[c].env.value < NENV == |k.envs|
    requires WordsOk(call) && HasRoom(k, k.cpus[c].env.value, call)
    requires call.PageAllocCall? || call.PageMapCall? || call.PageUnmapCall?
    modifies k`pages, k`pageFreeList, k`mem, k`free, k`tlbs, k`g
    ensures !r.Left? && (r.Returns? ==> Serving(k, c) && |k.mail| == NENV)
    ensures r.Over? <==> CallEnds(old(Now(k)), old(k.cpus)[c].env.value, call)
    ensures !r.Over? ==> SameMapped(old(k.g), k.boot, old(k.mem), k.mem)
    ensures r.Returns? && call.PageAllocCall? ==> NewPagesZero(old(k.g), k.g, k.mem)
    ensures r.Returns? ==>
      Served(call, r.code, k.cpus[c].env.value, old(k.g), |old(k.free)|, k.envs, k.mail, k.g, k.envs, k.mail)
  {
    hide SystemInv, SameMapped, PageMapResult, Served, HasRoom, WordsOk, NewPagesZero, Resolve, TrySendResult;
    if call.PageAllocCall? {
      r := ServePageAlloc(k, c, call);
    } else if call.PageMapCall? {
      r := ServePageMap(k, c, call);
    } else {
      r := ServePageUnmap(k, c, call);
    }
  }

  /** What a call of environment `cur` does to the messages: only a successful sys_ipc_try_send is one more delivery,
      and it is one of the caller's; sys_ipc_recv either refuses or leaves the caller blocked. No live environment's
      slot is allocated anew. */
  ghost predicate CallLogged(call: Call, r: Ending, cur: nat, envs: seq<Env>, mail: seq<History>, allocs: seq<nat>,
                             sent: seq<Delivery>, envs': seq<Env>, mail': seq<History>, allocs': seq<nat>,
                             sent': seq<Delivery>)
    requires cur < NENV == |envs| == |mail| == |allocs|
  {
    && (!r.Over? ==> SameAllocs(envs, allocs, allocs'))
    && (if call.TrySendCall? && r.Returns? then
          SendLogged(cur, Resolve(envs, cur, call.envid, false), call.value, r.code, envs, mail, allocs, sent, mail',
                     sent')
        else sent' == sent)
    && (call.TrySendCall? ==> !r.Left?)
    && (call.RecvCall? ==>
          && (r.Returns? ==> r == Returns(E_INVAL) && call.dstva < UTOP && call.dstva % PGSIZE != 0 && mail' == mail)
          && (r.Left? ==> Blocks(envs, mail, envs', mail', cur, call.dstva)))
  }

  /** The system calls of IPC. */
  method ServeMessages(k: Kernel, c: nat, call: Call) returns (r: Ending)
    requires Serving(k, c) && c < |k.cpus| && k.cpus[c].env.Some? && k.cpus[c].env.value < NENV == |k.envs|
    requires |k.mail| == |k.allocs| == NENV
    requires WordsOk(call) && HasRoom(k, k.cpus[c].env.value, call) && (call.TrySendCall? || call.RecvCall?)
    modifies k`pages, k`pageFreeList, k`mem, k`free, k`tlbs, k`g, k`envs, k`cpus, k`lock, k`mail, k`sent, k`log
    ensures r.Returns? ==> Serving(k, c) && k.cpus == old(k.cpus) && k.log == old(k.log)
    ensures r.Left? ==>
      LeftFor(SystemCall(call), old(k.cpus)[c].env.value, old(k.envFreeList), old(k.envs), old(k.cpus), old(k.log), c,
              k.envs, k.cpus, k.log)
    ensures r.Left? ==> SystemInv(k) && k.lock == None && k.g == old(k.g)
    ensures r.Over? <==> CallEnds(old(Now(k)), old(k.cpus)[c].env.value, call)
    ensures !r.Over? ==> SameMapped(old(k.g), k.boot, old(k.mem), k.mem)
    ensures !r.Over? ==> Grows(old(k.envs), old(k.mail), k.envs, k.mail, old(k.cpus)[c].env)
    ensures Forward(old(k.log), k.log)
    ensures r.Returns? ==>
      Served(call, r.code, old(k.cpus)[c].env.value, old(k.g), |old(k.free)|, old(k.envs), old(k.mail), k.g, k.envs,
             k.mail)
    ensures CallLogged(call, r, old(k.cpus)[c].env.value, old(k.envs), old(k.mail), old(k.allocs), old(k.sent),
                       k.envs, k.mail, k.allocs, k.sent)
  {
    hide Inv, EnvInv, Coherent, RunOk, MailOk, BoxOk, IdAfter, TransferResult, HandedOver, Grows, LogOk, Forward,
         SameAllocs, Blocks, SameMapped;
    SameForward(k.log);
    SameMappedRefl(k.C(), k.g, k.mem, k.boot, NOTHING);
    AllocsKept(k.envs, k.allocs);
    if call.RecvCall? {
      r := SysIpcRecv(k, c, call.dstva);
      return;
    }
    InSyscallWhileServing(k, c);
    SendCountsUp(k, c, call);
    ResolvedIsLive(k, c, call.envid, false);
    r := TrySend(k, c, call.envid, call.value, call.srcva, call.perm);
    if r.Returns? {
      AnyGrows(old(k.envs), old(k.mail), k.envs, k.mail, old(k.cpus)[c].env);
    }
  }

  /** The system calls on environments. */
  method ServeEnvs(k: Kernel, c: nat, call: Call) returns (r: Ending)
    requires Serving(k, c) && c < |k.cpus| && k.cpus[c].env.Some? && k.cpus[c].env.value < NENV == |k.envs|
    requires |k.mail| == |k.allocs| == NENV
    requires WordsOk(call) && HasRoom(k, k.cpus[c].env.value, call)
    requires Admitted(k.envs, k.cpus, k.cpus[c].env.value, call)
    requires call.DestroyCall? || call.ExoforkCall? || call.SetStatusCall?
    modifies k
    ensures r.Returns? ==> Inside(k, c) && k.cpus == old(k.cpus) && k.log == old(k.log)
    ensures r.Over? <==> CallEnds(old(Now(k)), old(k.cpus)[c].env.value, call)
    ensures !r.Over? ==> SameMapped(old(k.g), k.boot, old(k.mem), k.mem)
    ensures r.Left? ==>
      LeftFor(SystemCall(call), old(k.cpus)[c].env.value, old(k.envFreeList), old(k.envs), old(k.cpus), old(k.log), c,
              k.envs, k.cpus, k.log)
    ensures r.Left? ==> SystemInv(k) && k.lock == None && k.g == WithoutEnv(old(k.g), old(k.cpus)[c].env.value)
    ensures !r.Over? ==> Grows(old(k.envs), old(k.mail), k.envs, k.mail, None)
    ensures !r.Over? ==> SameAllocs(old(k.envs), old(k.allocs), k.allocs)
    ensures k.sent == old(k.sent) && Forward(old(k.log), k.log)
    ensures r.Returns? ==>
      Served(call, r.code, old(k.cpus)[c].env.value, old(k.g), |old(k.free)|, old(k.envs), old(k.mail), k.g, k.envs,
             k.mail)
  {
    hide Inv, EnvInv, Coherent, RunOk, MailOk, BoxOk, WithoutEnv, SameData, IdAfter, Remapped, SameMapped, Flat, Grows,
         LogOk, Forward, SameAllocs, NothingElse;
    InSyscallWhileServing(k, c);
    SameMappedRefl(k.C(), k.g, k.mem, k.boot, NOTHING);
    SameForward(k.log);
    AllocsKept(k.envs, k.allocs);
    SameGrows(k.envs, k.envs, k.mail, None);
    match call
    case DestroyCall(envid) =>
      var e := Envid2Env(k, c, envid, true);
      if e == None {
        return Returns(E_BAD_ENV);
      }
      ResolvedIsLive(k, c, envid, true);
      r := EnvDestroy(k, c, e.value);
    case ExoforkCall =>
      ForkCountsUp(k, c);
      r := Exofork(k, c);
    case SetStatusCall(envid, status) =>
      r := SetStatus(k, c, envid, status);
      StatusSizes(old(k.envs), k.envs, k.cpus[c].env.value, envid, status, r.code);
      SameGrows(old(k.envs), k.envs, k.mail, None);
  }

  /** The system calls that concern the caller only. */
  method ServeSelf(k: Kernel, c: nat, call: Call) returns (r: Ending)
    requires Serving(k, c) && c < |k.cpus| && k.cpus[c].env.Some? && k.cpus[c].env.value < NENV == |k.envs|
    requires |k.mail| == |k.allocs| == NENV && WordsOk(call)
    requires call.CputsCall? || call.GetEnvId? || call.Yield? || call.Unknown?
    modifies k`pages, k`pageFreeList, k`mem, k`free, k`tlbs, k`g, k`envs, k`envFreeList, k`envFree, k`cpus, k`lock,
             k`mail, k`log
    ensures r.Returns? ==> Inside(k, c) && k.cpus == old(k.cpus) && k.log == old(k.log)
    ensures r.Over? <==> CallEnds(old(Now(k)), old(k.cpus)[c].env.value, call)
    ensures SameMapped(old(k.g), k.boot, old(k.mem), k.mem)
    ensures r.Left? ==>
      LeftFor(SystemCall(call), old(k.cpus)[c].env.value, old(k.envFreeList), old(k.envs), old(k.cpus), old(k.log), c,
              k.envs, k.cpus, k.log)
    ensures r.Left? ==> SystemInv(k) && k.lock == None
    ensures r.Left? ==> k.g == old(k.g) || k.g == WithoutEnv(old(k.g), old(k.cpus)[c].env.value)
    ensures Grows(old(k.envs), old(k.mail), k.envs, k.mail, None) && Forward(old(k.log), k.log)
    ensures r.Returns? ==>
      Served(call, r.code, old(k.cpus)[c].env.value, old(k.g), |old(k.free)|, old(k.envs), old(k.mail), k.g, k.envs,
             k.mail)
  {
    hide Inv, EnvInv, Coherent, RunOk, MailOk, BoxOk, WithoutEnv, SameMapped, Scheduled, Flat, Grows, LogOk, Forward,
         NothingElse, SomethingToRun, AllPassed, CheckPanics;
    InSyscallWhileServing(k, c);
    SameMappedRefl(k.C(), k.g, k.mem, k.boot, NOTHING);
    SameForward(k.log);
    SameGrows(k.envs, k.envs, k.mail, None);
    match call
    case CputsCall(s, len) =>
      CallerDirectory(k, c);
      r := Cputs(k, c, s, len);
    case GetEnvId =>
      return Returns(k.envs[k.cpus[c].env.value].id);
    case Yield =>
      CallerCanRun(k, c);
      r := YieldCpu(k, c);
    case Unknown =>
      return Returns(E_INVAL);
  }

  /** syscall(). */
  method ServeCall(k: Kernel, c: nat, call: Call) returns (r: Ending)
    requires Serving(k, c) && c < |k.cpus| && k.cpus[c].env.Some? && k.cpus[c].env.value < NENV == |k.envs|
    requires |k.mail| == |k.allocs| == NENV
    requires WordsOk(call) && HasRoom(k, k.cpus[c].env.value, call)
    requires Admitted(k.envs, k.cpus, k.cpus[c].env.value, call)
    modifies k
    ensures r.Returns? ==> Inside(k, c) && k.cpus == old(k.cpus) && k.log == old(k.log)
    ensures r.Over? <==> CallEnds(old(Now(k)), old(k.cpus)[c].env.value, call)
    ensures !r.Over? ==> SameMapped(old(k.g), k.boot, old(k.mem), k.mem)
    ensures r.Returns? && call.PageAllocCall? ==> NewPagesZero(old(k.g), k.g, k.mem)
    ensures r.Left? ==>
      LeftFor(SystemCall(call), old(k.cpus)[c].env.value, old(k.envFreeList), old(k.envs), old(k.cpus), old(k.log), c,
              k.envs, k.cpus, k.log)
    ensures r.Left? ==> SystemInv(k) && k.lock == None
    ensures r.Left? ==> k.g == old(k.g) || k.g == WithoutEnv(old(k.g), old(k.cpus)[c].env.value)
    ensures !r.Over? ==> Grows(old(k.envs), old(k.mail), k.envs, k.mail, old(k.cpus)[c].env)
    ensures Forward(old(k.log), k.log)
    ensures r.Returns? ==>
      Served(call, r.code, old(k.cpus)[c].env.value, old(k.g), |old(k.free)|, old(k.envs), old(k.mail), k.g, k.envs,
             k.mail)
    ensures CallLogged(call, r, old(k.cpus)[c].env.value, old(k.envs), old(k.mail), old(k.allocs), old(k.sent),
                       k.envs, k.mail, k.allocs, k.sent)
  {
    hide Inv, EnvInv, Coherent, RunOk, MailOk, BoxOk, WithoutEnv, IdAfter, SameMapped, Grows, LogOk, Forward,
         SameAllocs, Blocks, Served, CallEnds, HasRoom, Admitted, WordsOk, NewPagesZero;
    AllocsKept(k.envs, k.allocs);
    ghost var me := k.cpus[c].env;
    if call.PageAllocCall? || call.PageMapCall? || call.PageUnmapCall? {
      SameForward(k.log);
      SameGrows(k.envs, k.envs, k.mail, me);
      r := ServePages(k, c, call);
    } else if call.TrySendCall? || call.RecvCall? {
      r := ServeMessages(k, c, call);
    } else if call.DestroyCall? || call.ExoforkCall? || call.SetStatusCall? {
      r := ServeEnvs(k, c, call);
      if !r.Over? {
        AnyGrows(old(k.envs), old(k.mail), k.envs, k.mail, me);
      }
    } else {
      r := ServeSelf(k, c, call);
      AnyGrows(old(k.envs), old(k.mail), k.envs, k.mail, me);
    }
  }

  /** A call that returns leaves the caller's own history alone. */
  lemma OwnHistoryKept(call: Call, code: int, cur: nat, g: Graph, free: nat, envs: seq<Env>, mail: seq<History>,
                       g': Graph, envs': seq<Env>, mail': seq<History>)
    requires cur < NENV == |envs| == |mail| && WordsOk(call) && envs[cur].status != Free && !envs[cur].recving
    requires Served(call, code, cur, g, free, envs, mail, g', envs', mail')
    ensures |mail'| == NENV && mail'[cur] == mail[cur]
  {
    hide Remapped, Flat, PageMapResult, TransferResult, HandedOver, WithoutEnv, Born;
  }

  lemma MapSucceeds(g: Graph, free: nat, src: Option<nat>, srcva: nat, dst: Option<nat>, dstva: nat, perm: Word)
    requires srcva < ADDRESS_LIMIT && dstva < ADDRESS_LIMIT
    ensures PageMapResult(g, free, src, srcva, dst, dstva, perm) == Ret(0) ==>
      src.Some? && dst.Some? && UserPage(srcva) && UserPage(dstva) && At(src.value, srcva) in g
  {
  }

  /** The walk of memory finds what the graph holds. */
  lemma EntryIsInGraph(k: Kernel, e: nat, va: nat)
    requires k.PageInv(NOTHING) && k.EnvsInv() && e < NENV == |k.envs| && k.envs[e].status != Free && va < UTOP
    ensures EntryOf(k, e, va) == if At(e, va) in k.g then Some(k.g[At(e, va)]) else None
    ensures HasTable(k, e, va) <==> Pde(e, PDX(va)) in k.g
    ensures At(e, va) in k.g ==> Pde(e, PDX(va)) in k.g && k.g[At(e, va)].addr < |k.pages|
  {
    hide Inv, EnvInv;
    SlotInUse(k.envs, k.envFreeList, k.envFree, k.allocs, k.g, e);
    k.WalkFollowsGraph(e, k.envs[e].pgdir.value, va, NOTHING);
  }

  /** Page `pp` is mapped at `va` in environment `e`. */
  ghost predicate MappedAt(g: Graph, e: nat, va: nat, pp: nat) {
    va < UTOP && At(e, va) in g && g[At(e, va)].addr == pp
  }

  /** `p` is the page of `e` at `va` if `done` and `t` does not have it at `dstva` already, and none otherwise. */
  ghost predicate CountedExactly(g: Graph, npages: nat, done: bool, e: nat, va: nat, t: nat, dstva: nat, p: Option<nat>)
  {
    if !done then p == None
    else
      && va < UTOP && At(e, va) in g && g[At(e, va)].addr < npages
      && p == if MappedAt(g, t, dstva, g[At(e, va)].addr) then None else Some(g[At(e, va)].addr)
  }

  /** sys_page_map counts a page up exactly when it succeeds in mapping one where it is not mapped, and then the one it
      shares. */
  ghost predicate MapCounted(k: Kernel, cur: nat, call: Call)
    requires cur < NENV == |k.envs| && call.PageMapCall? && WordsOk(call)
    reads k
  {
    var s, t := Resolve(k.envs, cur, call.srcenvid, true), Resolve(k.envs, cur, call.dstenvid, true);
    CountedExactly(k.g, |k.pages|, PageMapResult(k.g, |k.free|, s, call.srcva, t, call.dstva, call.perm) == Ret(0),
                   if s.Some? then s.value else 0, call.srcva, if t.Some? then t.value else 0, call.dstva,
                   CountsUp(k, cur, call))
  }

  lemma MapCountsUp(k: Kernel, c: nat, call: Call)
    requires c < |k.cpus| && k.cpus[c].env.Some? && k.cpus[c].env.value < NENV == |k.envs|
    requires InSyscall(k, c) && call.PageMapCall? && WordsOk(call)
    ensures MapCounted(k, k.cpus[c].env.value, call)
  {
    hide Inv, EnvInv, EntryOf, HasTable;
    Sizes(k.C(), k.g, k.mem, k.boot, NOTHING);
    var s := Resolve(k.envs, k.cpus[c].env.value, call.srcenvid, true);
    var t := Resolve(k.envs, k.cpus[c].env.value, call.dstenvid, true);
    ResolvedIsLive(k, c, call.srcenvid, true);
    ResolvedIsLive(k, c, call.dstenvid, true);
    if s.Some? && t.Some? && UserPage(call.srcva) && UserPage(call.dstva) {
      EntryIsInGraph(k, s.value, call.srcva);
      EntryIsInGraph(k, t.value, call.dstva);
    }
  }

  /** sys_ipc_try_send counts a page up exactly when it succeeds in handing one over that the target does not have
      there, and then that one. */
  ghost predicate SendCounted(k: Kernel, cur: nat, call: Call)
    requires cur < NENV == |k.envs| && call.TrySendCall? && WordsOk(call)
    reads k
  {
    var t := Resolve(k.envs, cur, call.envid, false);
    CountedExactly(k.g, |k.pages|,
                   t.Some? && SendsPage(call.srcva, k.envs[t.value].dstva)
                   && TrySendResult(k.g, |k.free|, k.envs, cur, t, call.srcva, call.perm) == Ret(0),
                   cur, call.srcva, if t.Some? then t.value else 0, if t.Some? then k.envs[t.value].dstva else 0,
                   CountsUp(k, cur, call))
  }

  lemma SendCountsUp(k: Kernel, c: nat, call: Call)
    requires c < |k.cpus| && k.cpus[c].env.Some? && k.cpus[c].env.value < NENV == |k.envs|
    requires InSyscall(k, c) && call.TrySendCall? && WordsOk(call)
    ensures SendCounted(k, k.cpus[c].env.value, call)
  {
    hide Inv, EnvInv, EntryOf, HasTable;
    var cur := k.cpus[c].env.value;
    var t := Resolve(k.envs, cur, call.envid, false);
    Sizes(k.C(), k.g, k.mem, k.boot, NOTHING);
    ResolvedIsLive(k, c, call.envid, false);
    if t.Some? && SendsPage(call.srcva, k.envs[t.value].dstva) {
      EntryIsInGraph(k, cur, call.srcva);
      EntryIsInGraph(k, t.value, k.envs[t.value].dstva);
    }
  }

  /** sys_exofork counts the screen up exactly when it makes a child. */
  lemma ForkCountsUp(k: Kernel, c: nat)
    requires c < |k.cpus| && k.cpus[c].env.Some? && k.cpus[c].env.value < NENV == |k.envs|
    requires InSyscall(k, c)
    ensures VGA_PAGE < |k.pages|
    ensures CountsUp(k, k.cpus[c].env.value, ExoforkCall) ==
            if AllocOutcome(|k.envFree|, |k.free|).Done? then Some(VGA_PAGE) else None
  {
    hide Inv, EnvInv;
    EnvSizes(k.envs, k.envFreeList, k.envFree, k.allocs, k.g);
    Extent(k.C(), k.g, k.mem, k.boot, NOTHING);
    TwoFreeExactly(k.C(), k.g, k.mem, k.boot);
  }

  lemma TwoFreeExactly(c: Counts, g: Graph, m: seq<Frame>, b: Boot)
    requires Inv(c, g, m, b, NOTHING)
    ensures TwoFree(c.pages, c.head) <==> |c.free| >= 2
  {
    hide Match, GraphOk, FreeExact, RefsCounted;
    if |c.free| >= 1 {
      assert Chain(c.pages, c.pages[c.free[0]].link, c.free[1..]);
    }
  }

  /** No call hands write permission for a page in use to anybody unless somebody had it. */
  lemma ServedHandsOn(call: Call, code: int, cur: nat, g: Graph, free: nat, envs: seq<Env>, mail: seq<History>,
                      g': Graph, envs': seq<Env>, mail': seq<History>)
    requires cur < NENV == |envs| == |mail| && WordsOk(call)
    requires Served(call, code, cur, g, free, envs, mail, g', envs', mail')
    ensures NoNewWriter(g, g')
  {
    hide NoNewWriter, Remapped, Flat, PageMapResult, TransferResult, HandedOver;
    SameHandsOn(g);
    match call
    case DestroyCall(envid) =>
      var t := Resolve(envs, cur, envid, true);
      if t.Some? {
        DestroyHandsOn(g, t.value);
      }
    case ExoforkCall =>
      if code >= 0 {
        var d: nat :| Remapped(g[Dir(EnvX(code)) := Word(d, NO_FLAGS)], g', EnvX(code), VGA_USER,
                               Word(VGA_PAGE, VGA_FLAGS));
        BirthHandsOn(g, g', EnvX(code), d);
      }
    case PageAllocCall(envid, va, perm) =>
      if code == 0 {
        var t := Resolve(envs, cur, envid, true);
        var p: nat :| FreshPage(g, g', t.value, va, Word(p, perm.flags));
        RemapHandsOn(g, g', t.value, va, Word(p, perm.flags));
      }
    case PageMapCall(srcenvid, srcva, dstenvid, dstva, perm) =>
      if code == 0 {
        MapHandsOn(g, free, g', Resolve(envs, cur, srcenvid, true), srcva, Resolve(envs, cur, dstenvid, true), dstva,
                   perm);
      }
    case PageUnmapCall(envid, va) =>
      if code == 0 {
        LossHandsOn(g, g');
      }
    case TrySendCall(envid, value, srcva, perm) =>
      if code == 0 {
        var t := Resolve(envs, cur, envid, false).value;
        TransferHandsOn(g, free, g', cur, t, srcva, envs[t].dstva, perm);
      }
    case _ =>
  }

  /** A call that returns brings nothing but zeros into use. */
  lemma ServedBrings(call: Call, code: int, cur: nat, g: Graph, free: nat, envs: seq<Env>, mail: seq<History>,
                     g': Graph, envs': seq<Env>, mail': seq<History>, m': seq<Frame>)
    requires cur < NENV == |envs| == |mail| && WordsOk(call) && !call.PageAllocCall?
    requires Served(call, code, cur, g, free, envs, mail, g', envs', mail')
    ensures NewPagesZero(g, g', m')
  {
    hide NewPagesZero, Remapped, Flat, WithoutEnv, SlotOf;
    DestroyBringsNone(g, 0, m');
    match call
    case DestroyCall(envid) =>
      var t := Resolve(envs, cur, envid, true);
      if t.Some? {
        DestroyBringsNone(g, t.value, m');
      }
    case ExoforkCall =>
      if code >= 0 {
        var d: nat :| Remapped(g[Dir(EnvX(code)) := Word(d, NO_FLAGS)], g', EnvX(code), VGA_USER,
                               Word(VGA_PAGE, VGA_FLAGS));
        BirthBrings(g, g', EnvX(code), d, m');
      }
    case PageMapCall(srcenvid, srcva, dstenvid, dstva, perm) =>
      if code == 0 {
        var s := Resolve(envs, cur, srcenvid, true).value;
        SlotIsReferenced(g, At(s, srcva));
        RemapBrings(g, g', Resolve(envs, cur, dstenvid, true).value, dstva, Word(g[At(s, srcva)].addr, perm.flags), m');
      }
    case PageUnmapCall(envid, va) =>
      if code == 0 {
        LossBringsNone(g, g', m');
      }
    case TrySendCall(envid, value, srcva, perm) =>
      if code == 0 {
        var dst := envs[Resolve(envs, cur, envid, false).value].dstva;
        if SendsPage(srcva, dst) {
          SlotIsReferenced(g, At(cur, srcva));
          RemapBrings(g, g', Resolve(envs, cur, envid, false).value, dst,
                      Word(g[At(cur, srcva)].addr, perm.flags.(p := true)), m');
        }
      }
    case _ =>
  }

  /** The calls of `cur` that may change the memory of environment `e`: its own; those on its pages, or on itself, by
      its id; and the handing over of a page that it waits for. */
  predicate Reaches(envs: seq<Env>, cur: nat, call: Call, e: nat)
    requires cur < NENV == |envs| && e < NENV
  {
    e == cur ||
    match call
    case DestroyCall(envid) => Resolve(envs, cur, envid, true) == Some(e)
    case PageAllocCall(envid, _, _) => Resolve(envs, cur, envid, true) == Some(e)
    case PageMapCall(srcenvid, _, dstenvid, _, _) =>
      Resolve(envs, cur, srcenvid, true) == Some(e) || Resolve(envs, cur, dstenvid, true) == Some(e)
    case PageUnmapCall(envid, _) => Resolve(envs, cur, envid, true) == Some(e)
    case TrySendCall(envid, _, _, _) =>
      Resolve(envs, cur, envid, false) == Some(e) && envs[e].recving && envs[e].dstva < UTOP
    case _ => false
  }

  /** Apart from an environment itself, only its parent reaches it, and a sender while it waits for a page. */
  lemma OnlyParentReaches(envs: seq<Env>, cur: nat, call: Call, e: nat)
    requires cur < NENV == |envs| && e < NENV && Reaches(envs, cur, call, e)
    ensures e == cur || envs[e].parent == envs[cur].id || (call.TrySendCall? && envs[e].recving && envs[e].dstva < UTOP)
  {
  }

  /** A call that does not reach `e` spares it. */
  lemma ServedSpares(call: Call, code: int, cur: nat, g: Graph, free: nat, envs: seq<Env>, mail: seq<History>,
                     g': Graph, envs': seq<Env>, mail': seq<History>, e: nat)
    requires cur < NENV == |envs| == |mail| && WordsOk(call) && e < NENV && Dir(e) in g
    requires Served(call, code, cur, g, free, envs, mail, g', envs', mail') && !Reaches(envs, cur, call, e)
    ensures Spared(g, g', e)
  {
    hide Remapped, Flat, Owns, WithoutEnv, SlotOf;
    SpareSame(g, e);
    match call
    case DestroyCall(envid) =>
      var t := Resolve(envs, cur, envid, true);
      if t.Some? {
        DestroySpares(g, t.value, e);
      }
    case ExoforkCall =>
      if code >= 0 {
        var d: nat :| Remapped(g[Dir(EnvX(code)) := Word(d, NO_FLAGS)], g', EnvX(code), VGA_USER,
                               Word(VGA_PAGE, VGA_FLAGS));
        BirthSpares(g, g', EnvX(code), d, e);
      }
    case PageAllocCall(envid, va, perm) =>
      if code == 0 {
        var t := Resolve(envs, cur, envid, true);
        var p: nat :| FreshPage(g, g', t.value, va, Word(p, perm.flags));
        UnusedIsNotOwned(g, e, p);
        RemapSpares(g, g', t.value, va, Word(p, perm.flags), e);
      }
    case PageMapCall(srcenvid, srcva, dstenvid, dstva, perm) =>
      if code == 0 {
        var s, t := Resolve(envs, cur, srcenvid, true).value, Resolve(envs, cur, dstenvid, true).value;
        if perm.flags.w {
          NothingToHandOn(g, e, s, srcva);
        }
        RemapSpares(g, g', t, dstva, Word(g[At(s, srcva)].addr, perm.flags), e);
      }
    case PageUnmapCall(envid, va) =>
      if code == 0 {
        UnmapSpares(g, g', Resolve(envs, cur, envid, true).value, va, e);
      }
    case TrySendCall(envid, value, srcva, perm) =>
      if code == 0 {
        var t := Resolve(envs, cur, envid, false).value;
        TransferSpares(g, free, g', cur, t, srcva, envs[t].dstva, perm, e);
      }
    case _ =>
  }

  /** The traps of environment `cur` that may change the memory of `e`. */
  predicate TrapReaches(envs: seq<Env>, cur: nat, cause: Cause, e: nat)
    requires cur < NENV == |envs| && e < NENV
  {
    match cause
    case SystemCall(call) => Reaches(envs, cur, call, e)
    case PageFault => e == cur
    case Unexpected => e == cur
    case _ => false
  }

  /** Every environment that the trap does not reach is spared. */
  ghost predicate TrapSpares(envs: seq<Env>, cur: nat, cause: Cause, g: Graph, g': Graph)
    requires cur < NENV == |envs|
  {
    forall e: nat | e < NENV && Dir(e) in g && !TrapReaches(envs, cur, cause, e) :: Spared(g, g', e)
  }

  /** A trap that changes no map, or destroys its environment. */
  lemma LeavingSpares(envs: seq<Env>, cur: nat, cause: Cause, g: Graph, g': Graph)
    requires cur < NENV == |envs|
    requires g' == g || (g' == WithoutEnv(g, cur) && (cause.SystemCall? || cause.PageFault? || cause.Unexpected?))
    ensures TrapSpares(envs, cur, cause, g, g')
  {
    hide Spared, WithoutEnv;
    forall e: nat | e < NENV && Dir(e) in g && !TrapReaches(envs, cur, cause, e) ensures Spared(g, g', e) {
      SpareSame(g, e);
      if e != cur {
        DestroySpares(g, cur, e);
      }
    }
  }

  lemma ServedSparesAll(call: Call, code: int, cur: nat, g: Graph, free: nat, envs: seq<Env>, mail: seq<History>,
                        g': Graph, envs': seq<Env>, mail': seq<History>)
    requires cur < NENV == |envs| == |mail| && WordsOk(call)
    requires Served(call, code, cur, g, free, envs, mail, g', envs', mail')
    ensures TrapSpares(envs, cur, SystemCall(call), g, g')
  {
    hide Spared, Served;
    forall e: nat | e < NENV && Dir(e) in g && !TrapReaches(envs, cur, SystemCall(call), e) ensures Spared(g, g', e) {
      ServedSpares(call, code, cur, g, free, envs, mail, g', envs', mail', e);
    }
  }

  /** The status that a call of `cur` that returns may give to environment `e`. */
  predicate MayBecome(envs: seq<Env>, cur: nat, call: Call, e: nat, status: Status)
    requires cur < NENV == |envs| && e < NENV
  {
    match call
    case DestroyCall(envid) =>
      && Resolve(envs, cur, envid, true) == Some(e) && e != cur
      && status == if envs[e].status == Running then Dying else Free
    case ExoforkCall => envs[e].status == Free && status == NotRunnable
    case SetStatusCall(envid, wanted) => Resolve(envs, cur, envid, true) == Some(e) && status == wanted
    case TrySendCall(envid, _, _, _) =>
      Resolve(envs, cur, envid, false) == Some(e) && envs[e].recving && status == Runnable
    case _ => false
  }

  /** A call of `cur` that returns changes no other status, makes nobody wait for a message or for another page, wakes
      nobody unless it is a sys_ipc_try_send, and leaves alone the last message of everybody who does not wait, the
      registers of all others, and the caller's but for eax. */
  ghost predicate CallMoves(envs: seq<Env>, cur: nat, call: Call, envs': seq<Env>) {
    && cur < NENV == |envs| == |envs'|
    && forall e: nat | e < NENV ::
         && (envs'[e].status == envs[e].status || MayBecome(envs, cur, call, e, envs'[e].status))
         && (envs[e].status != Free && envs'[e].status != Free ==>
               && SameSelf(envs[e], envs'[e]) && envs'[e].tf.rest == envs[e].tf.rest
               && (e != cur && !(envs[e].recving && !envs'[e].recving) ==> envs'[e].tf == envs[e].tf)
               && (envs'[e].recving ==> envs[e].recving && envs'[e].dstva == envs[e].dstva)
               && (envs[e].recving && !envs'[e].recving ==> call.TrySendCall?)
               && (!envs[e].recving ==> SameMessage(envs[e], envs'[e])))
  }

  predicate SameSelf(v: Env, v': Env) { v'.id == v.id && v'.parent == v.parent && v'.pgdir == v.pgdir }

  predicate SameMessage(v: Env, v': Env) { v'.value == v.value && v'.from == v.from && v'.perm == v.perm }

  /** A sys_ipc_try_send of `cur` that has woken `t`: the message is in its fields, and if the sender passed a page and
      the receiver had asked for one, it has the sender's page where it asked for it, and its permission in a field. */
  ghost predicate Received(envs: seq<Env>, cur: nat, call: Call, t: nat, g: Graph, envs': seq<Env>, g': Graph)
    requires cur < |envs| && t < |envs| == |envs'| && call.TrySendCall?
  {
    && envs[t].id == call.envid && envs'[t].status == Runnable && envs'[t].tf == envs[t].tf.(eax := 0)
    && envs'[t].value == call.value && envs'[t].from == envs[cur].id
    && if call.srcva < UTOP && envs[t].dstva < UTOP then
         var src, dst := PGNUM(call.srcva), PGNUM(envs[t].dstva);
         && src in Flat(g, cur) && dst in Flat(g', t)
         && Flat(g', t)[dst] == Word(Flat(g, cur)[src].addr, call.perm.flags.(p := true))
         && envs'[t].perm == call.perm.flags
       else envs'[t].perm == NO_FLAGS && g' == g
  }

  /** Whoever a sys_ipc_try_send of `cur` wakes has received. */
  ghost predicate WokenReceived(envs: seq<Env>, cur: nat, call: Call, g: Graph, envs': seq<Env>, g': Graph) {
    && cur < NENV == |envs| == |envs'| && call.TrySendCall?
    && forall t: nat | t < NENV && envs[t].status != Free && envs[t].recving && !envs'[t].recving ::
         Received(envs, cur, call, t, g, envs', g')
  }

  /** `envs2` is `envs1` with another eax of `cur`. */
  ghost predicate RegistersOnly(envs1: seq<Env>, envs2: seq<Env>, cur: nat) {
    && |envs1| == |envs2|
    && forall e | 0 <= e < |envs1| ::
         envs2[e] == envs1[e].(tf := envs1[e].tf.(eax := envs2[e].tf.eax)) && (e != cur ==> envs2[e] == envs1[e])
  }

  lemma ServedMoves(call: Call, code: int, cur: nat, g: Graph, free: nat, envs: seq<Env>, mail: seq<History>, g': Graph,
                    envs1: seq<Env>, mail': seq<History>, envs2: seq<Env>)
    requires cur < NENV == |envs| == |mail| && WordsOk(call) && envs[cur].status == Running
    requires Served(call, code, cur, g, free, envs, mail, g', envs1, mail') && RegistersOnly(envs1, envs2, cur)
    ensures CallMoves(envs, cur, call, envs2)
  {
    hide Remapped, Flat, PageMapResult, TransferResult, HandedOver, WithoutEnv, Born;
  }

  lemma ServedReceived(call: Call, code: int, cur: nat, g: Graph, free: nat, envs: seq<Env>, mail: seq<History>,
                       g': Graph, envs1: seq<Env>, mail': seq<History>, envs2: seq<Env>)
    requires cur < NENV == |envs| == |mail| && WordsOk(call) && call.TrySendCall? && !envs[cur].recving
    requires Served(call, code, cur, g, free, envs, mail, g', envs1, mail') && RegistersOnly(envs1, envs2, cur)
    ensures WokenReceived(envs, cur, call, g, envs2, g')
  {
    hide Flat, TrySendResult, SlotOf;
    if code == 0 && call.srcva < UTOP {
      LookupReads(g, cur, call.srcva);
    }
  }

  lemma SameHandsOn(g: Graph)
    ensures NoNewWriter(g, g)
  {
  }

  lemma OneChanged(envs1: seq<Env>, envs2: seq<Env>, cur: nat)
    requires cur < |envs1| && |envs2| == |envs1|
      && envs2 == envs1[cur := envs1[cur].(tf := envs1[cur].tf.(eax := envs2[cur].tf.eax))]
    ensures RegistersOnly(envs1, envs2, cur)
  {
  }

  /** What a call of `cur` has done by the time that its result is in eax. */
  ghost predicate Answered(call: Call, code: int, cur: nat, g: Graph, free: nat, envs: seq<Env>, mail: seq<History>,
                           g': Graph, envs': seq<Env>, mail': seq<History>)
  {
    && cur < NENV == |envs| == |mail| == |envs'| && WordsOk(call)
    && exists envs1: seq<Env> ::
         && |envs1| == NENV && envs' == envs1[cur := envs1[cur].(tf := envs1[cur].tf.(eax := code))]
         && Served(call, code, cur, g, free, envs, mail, g', envs1, mail')
  }

  lemma NowAnswered(call: Call, code: int, cur: nat, g: Graph, free: nat, envs: seq<Env>, mail: seq<History>, g': Graph,
                    envs1: seq<Env>, envs': seq<Env>, mail': seq<History>)
    requires cur < NENV == |envs| == |mail| == |envs1| && WordsOk(call)
    requires Served(call, code, cur, g, free, envs, mail, g', envs1, mail')
    requires envs' == envs1[cur := envs1[cur].(tf := envs1[cur].tf.(eax := code))]
    ensures Answered(call, code, cur, g, free, envs, mail, g', envs', mail')
  {
    hide Served, WordsOk;
  }

  /** The T_SYSCALL case of trap_dispatch(): the result goes to the caller's eax. */
  method ServeSyscall(k: Kernel, c: nat, call: Call) returns (r: Ending)
    requires Serving(k, c) && c < |k.cpus| && k.cpus[c].env.Some? && k.cpus[c].env.value < NENV == |k.envs|
    requires |k.mail| == |k.allocs| == NENV
    requires WordsOk(call) && HasRoom(k, k.cpus[c].env.value, call)
    requires Admitted(k.envs, k.cpus, k.cpus[c].env.value, call)
    modifies k
    ensures r.Returns? ==>
      Inside(k, c) && k.cpus == old(k.cpus) && k.log == old(k.log) && k.envs[k.cpus[c].env.value].tf.eax == r.code
    ensures r.Over? <==> CallEnds(old(Now(k)), old(k.cpus)[c].env.value, call)
    ensures r.Returns? ==>
      Answered(call, r.code, old(k.cpus)[c].env.value, old(k.g), |old(k.free)|, old(k.envs), old(k.mail), k.g, k.envs,
               k.mail)
    ensures r.Returns? ==> CallMoves(old(k.envs), old(k.cpus)[c].env.value, call, k.envs)
    ensures !r.Over? ==> NewPagesZero(old(k.g), k.g, k.mem)
    ensures r.Returns? && call.TrySendCall? ==>
      WokenReceived(old(k.envs), old(k.cpus)[c].env.value, call, old(k.g), k.envs, k.g)
    ensures !r.Over? ==> TrapSpares(old(k.envs), old(k.cpus)[c].env.value, SystemCall(call), old(k.g), k.g)
    ensures !r.Over? ==> SameMapped(old(k.g), k.boot, old(k.mem), k.mem)
    ensures r.Left? ==>
      LeftFor(SystemCall(call), old(k.cpus)[c].env.value, old(k.envFreeList), old(k.envs), old(k.cpus), old(k.log), c,
              k.envs, k.cpus, k.log)
    ensures r.Left? ==> SystemInv(k) && k.lock == None
    ensures !r.Over? ==>
      NoNewWriter(old(k.g), k.g) && Grows(old(k.envs), old(k.mail), k.envs, k.mail, old(k.cpus)[c].env)
    ensures Forward(old(k.log), k.log)
    ensures CallLogged(call, r, old(k.cpus)[c].env.value, old(k.envs), old(k.mail), old(k.allocs), old(k.sent),
                       k.envs, k.mail, k.allocs, k.sent)
  {
    hide Inv, EnvInv, Coherent, RunOk, MailOk, BoxOk, WithoutEnv, IdAfter, Served, NoNewWriter, Grows, HasRoom,
         Admitted, WordsOk, LogOk, Forward, SameAllocs, Woken, CallEnds, SameMapped, TrapSpares, CallMoves,
         WokenReceived, LeftFor, RegistersOnly, Answered, NewPagesZero;
    var curenv := k.cpus[c].env.value;
    SameHandsOn(k.g);
    DestroyHandsOn(k.g, curenv);
    NotWoken(k.envs, k.mail, k.allocs, k.sent, curenv);
    RunningIsNotReceiving(k, curenv);
    r := ServeCall(k, c, call);
    if r.Left? {
      LeavingSpares(old(k.envs), curenv, SystemCall(call), old(k.g), k.g);
      DestroyBringsNone(old(k.g), curenv, k.mem);
    }
    if r.Returns? {
      if !call.PageAllocCall? {
        ServedBrings(call, r.code, curenv, old(k.g), |old(k.free)|, old(k.envs), old(k.mail), k.g, k.envs, k.mail,
                     k.mem);
      }
      ServedSparesAll(call, r.code, curenv, old(k.g), |old(k.free)|, old(k.envs), old(k.mail), k.g, k.envs, k.mail);
      ServedHandsOn(call, r.code, curenv, old(k.g), |old(k.free)|, old(k.envs), old(k.mail), k.g, k.envs, k.mail);
      OwnHistoryKept(call, r.code, curenv, old(k.g), |old(k.free)|, old(k.envs), old(k.mail), k.g, k.envs, k.mail);
      CurrentIsLive(k, c);
      ghost var envs := k.envs;
      SaveRegisters(k, curenv, k.envs[curenv].tf.(eax := r.code));
      GrowsThenSame(old(k.envs), old(k.mail), envs, k.mail, k.envs, Some(curenv));
      OneChanged(envs, k.envs, curenv);
      NowAnswered(call, r.code, curenv, old(k.g), |old(k.free)|, old(k.envs), old(k.mail), k.g, envs, k.envs, k.mail);
      ServedMoves(call, r.code, curenv, old(k.g), |old(k.free)|, old(k.envs), old(k.mail), k.g, envs, k.mail, k.envs);
      if call.TrySendCall? {
        ServedReceived(call, r.code, curenv, old(k.g), |old(k.free)|, old(k.envs), old(k.mail), k.g, envs, k.mail,
                       k.envs);
      }
    }
  }

  /** trap_dispatch(), for a trap from user mode. */
  method Serve(k: Kernel, c: nat, cause: Cause) returns (r: Ending)
    requires Serving(k, c) && c < |k.cpus| && k.cpus[c].env.Some? && k.cpus[c].env.value < NENV == |k.envs|
    requires |k.mail| == |k.allocs| == NENV
    requires cause.SystemCall? ==>
      && WordsOk(cause.call) && HasRoom(k, k.cpus[c].env.value, cause.call)
      && Admitted(k.envs, k.cpus, k.cpus[c].env.value, cause.call)
    modifies k
    ensures r.Returns? ==> Inside(k, c) && k.cpus == old(k.cpus) && k.log == old(k.log)
    ensures r.Left? ==>
      LeftFor(cause, old(k.cpus)[c].env.value, old(k.envFreeList), old(k.envs), old(k.cpus), old(k.log), c, k.envs,
              k.cpus, k.log)
    ensures r.Left? ==> SystemInv(k) && k.lock == None
    ensures r.Over? <==> TrapEnds(old(Now(k)), old(k.cpus)[c].env.value, cause)
    ensures r.Returns? && cause.SystemCall? ==>
      Answered(cause.call, r.code, old(k.cpus)[c].env.value, old(k.g), |old(k.free)|, old(k.envs), old(k.mail), k.g,
               k.envs, k.mail)
    ensures !r.Over? ==> NewPagesZero(old(k.g), k.g, k.mem)
    ensures r.Returns? && cause.SystemCall? ==> CallMoves(old(k.envs), old(k.cpus)[c].env.value, cause.call, k.envs)
    ensures r.Returns? && cause.SystemCall? && cause.call.TrySendCall? ==>
      WokenReceived(old(k.envs), old(k.cpus)[c].env.value, cause.call, old(k.g), k.envs, k.g)
    ensures !r.Over? ==> TrapSpares(old(k.envs), old(k.cpus)[c].env.value, cause, old(k.g), k.g)
    ensures !r.Over? ==> SameMapped(old(k.g), k.boot, old(k.mem), k.mem)
    ensures r.Returns? && cause.SystemCall? ==> k.envs[k.cpus[c].env.value].tf.eax == r.code
    ensures cause.PageFault? || cause.Unexpected? ==>
      !r.Returns? && (r.Left? ==> k.g == WithoutEnv(old(k.g), old(k.cpus)[c].env.value))
    ensures cause.Timer? ==> !r.Returns? && k.g == old(k.g)
    ensures cause.Breakpoint? || cause.Spurious? ==>
      r.Returns? && k.g == old(k.g) && k.mem == old(k.mem) && k.envs == old(k.envs) && k.cpus == old(k.cpus)
    ensures !r.Over? ==>
      && NoNewWriter(old(k.g), k.g)
      && Grows(old(k.envs), old(k.mail), k.envs, k.mail, if cause.SystemCall? then old(k.cpus)[c].env else None)
    ensures Forward(old(k.log), k.log)
    ensures cause.SystemCall? ==>
      CallLogged(cause.call, r, old(k.cpus)[c].env.value, old(k.envs), old(k.mail), old(k.allocs), old(k.sent),
                 k.envs, k.mail, k.allocs, k.sent)
    ensures !cause.SystemCall? ==> k.allocs == old(k.allocs) && k.sent == old(k.sent)
  {
    hide Inv, EnvInv, Coherent, RunOk, MailOk, BoxOk, WithoutEnv, IdAfter, Scheduled, NoNewWriter, Grows,
         HasRoom, Admitted, WordsOk, LogOk, Forward, CallLogged, CallEnds, NothingElse, SameMapped,
         TrapSpares, CallMoves, WokenReceived, Answered, NewPagesZero;
    SameGrows(k.envs, k.envs, k.mail, None);
    SameForward(k.log);
    SameMappedRefl(k.C(), k.g, k.mem, k.boot, NOTHING);
    var curenv := k.cpus[c].env.value;
    SameHandsOn(k.g);
    DestroyHandsOn(k.g, curenv);
    LeavingSpares(k.envs, curenv, cause, k.g, k.g);
    DestroyBringsNone(k.g, curenv, k.mem);
    match cause
    case Breakpoint =>
      return Returns(0);
    case PageFault =>
      r := EnvDestroy(k, c, curenv);
      LeavingSpares(old(k.envs), curenv, cause, old(k.g), k.g);
      DestroyBringsNone(old(k.g), curenv, k.mem);
    case SystemCall(call) =>
      r := ServeSyscall(k, c, call);
    case Spurious =>
      return Returns(0);
    case Timer =>
      CallerCanRun(k, c);
      r := YieldCpu(k, c);
      LeavingSpares(old(k.envs), curenv, cause, old(k.g), k.g);
    case Unexpected =>
      r := EnvDestroy(k, c, curenv);
      LeavingSpares(old(k.envs), curenv, cause, old(k.g), k.g);
      DestroyBringsNone(old(k.g), curenv, k.mem);
  }

  /** Word `i` of page `v` of environment `e` is set to `w` if the page is mapped for writing by the user; nothing
      else changes. */
  ghost predicate Stored(g: Graph, m: seq<Frame>, m': seq<Frame>, e: nat, v: nat, i: nat, w: Word, done: bool)
    requires i < NPTENTRIES
  {
    && (done <==> v in Flat(g, e) && Flat(g, e)[v].flags.w && Flat(g, e)[v].flags.u)
    && (!done ==> m' == m)
    && (done ==> var p := Flat(g, e)[v].addr; p < |m| && m' == m[p := m[p][i := w]])
  }

  /** The store goes where the cached translation `t` says, if that allows it. */
  ghost predicate StoredThrough(t: Translation, m: seq<Frame>, m': seq<Frame>, i: nat, w: Word, done: bool)
    requires i < NPTENTRIES
  {
    && (done <==> t.write && t.user)
    && (!done ==> m' == m)
    && (done ==> t.addr < |m| && m' == m[t.addr := m[t.addr][i := w]])
  }

  /** On a uniprocessor the hardware may take the translation from the TLB instead, if it is there: the store is the
      same. */
  ghost predicate SameThroughTlb(tlbs: map<nat, Tlb>, ncpu: nat, c: nat, va: nat, m: seq<Frame>, m': seq<Frame>, i: nat,
                                 w: Word, done: bool)
    requires i < NPTENTRIES && va < ADDRESS_LIMIT
  {
    ncpu == 1 && c in tlbs && Page(PDX(va), PTX(va)) in tlbs[c] ==>
      StoredThrough(tlbs[c][Page(PDX(va), PTX(va))], m, m', i, w, done)
  }

  /** A translation cached on a uniprocessor is the one of the flat map. */
  lemma CachedIsMapped(k: Kernel, c: nat, va: nat)
    requires SystemInv(k) && c < |k.cpus| == 1 && k.cpus[c].place == InUser && va < UTOP
    requires c in k.tlbs && Page(PDX(va), PTX(va)) in k.tlbs[c]
    ensures k.cpus[c].env.Some? && At(k.cpus[c].env.value, va) in k.g
    ensures var w := k.g[At(k.cpus[c].env.value, va)];
      k.tlbs[c][Page(PDX(va), PTX(va))] ==
        Translation(w.addr, w.flags.w, w.flags.u, w.flags.pwt, w.flags.pcd)
  {
    UserDirectory(k, c);
    TlbIsCoherent(k, c);
    hide SystemInv;
    var e, d := k.cpus[c].env.value, k.cpus[c].cr3;
    WalkFromDirectory(k.C(), k.g, k.mem, k.boot, e, va);
  }

  lemma TlbIsCoherent(k: Kernel, c: nat)
    requires SystemInv(k) && c < |k.cpus| == 1
    ensures k.PageInv(NOTHING)
    ensures c in k.tlbs ==> Agrees(k.tlbs[c], k.mem, k.cpus[c].cr3)
  {
    hide Inv, EnvInv, MailOk, Agrees;
  }

  /** The hardware's walk below UTOP gives the page entry with its access rights. */
  lemma WalkFromDirectory(c: Counts, g: Graph, m: seq<Frame>, b: Boot, e: nat, va: nat)
    requires Inv(c, g, m, b, NOTHING) && Dir(e) in g && va < UTOP
    ensures g[Dir(e)].addr < |m|
    ensures Walk(m, g[Dir(e)].addr, Page(PDX(va), PTX(va))) ==
      if At(e, va) !in g then None
      else
        var w := g[At(e, va)];
        Some(Translation(w.addr, w.flags.w, w.flags.u, w.flags.pwt, w.flags.pcd))
  {
    hide CountInv;
    assert DirectoryOk(g, m, b, e);
    if Pde(e, PDX(va)) in g {
      assert TableMatch(g, m[g[Pde(e, PDX(va))].addr], e, PDX(va));
    }
  }

  /** A user program on CPU `c` writes word `i` of the page at `va`, if the tables in cr3 allow it. */
  method UserStore(k: Kernel, c: nat, va: nat, i: nat, w: Word) returns (done: bool)
    requires SystemInv(k) && c < |k.cpus| && k.cpus[c].place == InUser && va < UTOP && i < NPTENTRIES
    modifies k`mem
    ensures SystemInv(k)
    ensures k.cpus[c].env.Some? && Stored(k.g, old(k.mem), k.mem, k.cpus[c].env.value, PGNUM(va), i, w, done)
    ensures SameThroughTlb(k.tlbs, |k.cpus|, c, va, old(k.mem), k.mem, i, w, done)
  {
    hide Inv, EnvInv, Coherent, RunOk, MailOk, IdAfter, Flat;
    UserDirectory(k, c);
    if |k.cpus| == 1 && c in k.tlbs && Page(PDX(va), PTX(va)) in k.tlbs[c] {
      CachedIsMapped(k, c, va);
    }
    var d := k.cpus[c].cr3;
    ghost var e := k.cpus[c].env.value;
    k.WalkFollowsGraph(e, d, va, NOTHING);
    LookupReads(k.g, e, va);
    var page, pte := k.PageLookup(d, va);
    if page == None || !k.mem[pte.value.frame][pte.value.index].flags.w
       || !k.mem[pte.value.frame][pte.value.index].flags.u {
      return false;
    }
    EntryIsData(k.C(), k.g, k.mem, k.boot, e, va);
    StepData(k.C(), k.g, k.mem, k.boot, NOTHING, page.value, k.mem[page.value][i := w]);
    DataKeepsCoherence(k.tlbs, k.ThisCpu(), k.cpus, k.envs, k.C(), k.g, k.boot, k.mem, NOTHING, page.value,
                       k.mem[page.value][i := w]);
    k.mem := k.mem[page.value := k.mem[page.value][i := w]];
    return true;
  }

  lemma EntryIsData(c: Counts, g: Graph, m: seq<Frame>, b: Boot, e: nat, va: nat)
    requires Inv(c, g, m, b, NOTHING) && va < UTOP && At(e, va) in g
    ensures g[At(e, va)].addr < |m| == b.npages && NotTable(g, b, g[At(e, va)].addr)
  {
  }

  /** A CPU in user mode has its environment's directory loaded. */
  lemma UserDirectory(k: Kernel, c: nat)
    requires SystemInv(k) && c < |k.cpus| && k.cpus[c].place == InUser
    ensures k.cpus[c].env.Some? && k.IsDir(k.cpus[c].env.value, k.cpus[c].cr3)
  {
    hide Inv, MailOk, IdAfter;
    assert CpuOk(k.cpus[c], c, k.lock, k.envs, k.boot.kern);
    SlotInUse(k.envs, k.envFreeList, k.envFree, k.allocs, k.g, k.cpus[c].env.value);
  }

  /** What lib/ipc.c reads after sys_ipc_recv has returned 0 is the message received last. */
  lemma FieldsHoldLastMessage(k: Kernel, c: nat)
    requires SystemInv(k) && c < |k.cpus| && k.cpus[c].place == InUser
    ensures k.cpus[c].env.Some? && k.cpus[c].env.value < NENV == |k.envs| == |k.mail|
    ensures var e := k.cpus[c].env.value; var h := k.mail[e];
      h != [] ==> h[|h| - 1] == Got(Message(k.envs[e].value, k.envs[e].from))
  {
    hide Inv, EnvInv;
    assert CpuOk(k.cpus[c], c, k.lock, k.envs, k.boot.kern);
  }
}

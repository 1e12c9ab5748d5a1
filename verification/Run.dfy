/** The multi-CPU run protocol: env_run (kern/env.c), sched_yield and sched_halt (kern/sched.c) on the whole kernel
    state. */
module Run {
  import opened Layout
  import opened Graph
  import opened PageState
  import opened Tables
  import opened Steps
  import opened EnvId
  import opened EnvState
  import opened Tlb
  import opened Pmap
  import opened RunState
  import opened Sched
  import opened Ipc

  /** What holds after every step of every run. On one CPU the TLB agrees with the tables; on several, nothing flushes
      the TLBs of the other CPUs. */
  ghost predicate SystemInv(k: Kernel)
    reads k
  {
    && k.PageInv(NOTHING) && k.EnvsInv() && RunOk(k.envs, k.cpus, k.lock, k.boot.kern)
    && MailOk(k.envs, k.mail, k.allocs, k.sent) && LogOk(k.log, k.cpus)
    && (|k.cpus| == 1 ==> k.TlbOk())
  }

  /** CPU `c` is inside the kernel, and its environment is no zombie. */
  ghost predicate Inside(k: Kernel, c: nat)
    reads k
  {
    && SystemInv(k) && c < |k.cpus| && k.lock == Some(c)
    && (k.cpus[c].env.Some? ==> k.cpus[c].env.value < NENV == |k.envs| && k.envs[k.cpus[c].env.value].status != Dying)
  }

  /** The directory in any CPU's cr3 is never free: it is kern_pgdir, or the directory of a live environment. */
  lemma LoadedDirectoryIsNeverFree(k: Kernel, c: nat)
    requires SystemInv(k) && c < |k.cpus|
    ensures k.cpus[c].cr3 !in k.free
    ensures k.cpus[c].cr3 == k.boot.kern
      || exists e: nat :: e < NENV && Dir(e) in k.g && k.g[Dir(e)].addr == k.cpus[c].cr3 && k.cpus[c].env == Some(e)
  {
    hide Match, IdAfter;
    assert CpuOk(k.cpus[c], c, k.lock, k.envs, k.boot.kern);
    Sizes(k.C(), k.g, k.mem, k.boot, NOTHING);
    if k.cpus[c].cr3 != k.boot.kern {
      var e := k.cpus[c].env.value;
      SlotInUse(k.envs, k.envFreeList, k.envFree, k.allocs, k.g, e);
    }
  }

  /** In every reachable state, what an environment has received is what has been sent to it, once each and in order,
      up to the message that has woken it; and that is what all successful sends so far have addressed to it. */
  lemma ReceivedIsSent(k: Kernel, e: nat)
    requires SystemInv(k) && e < NENV == |k.envs| == |k.mail| == |k.allocs| && k.envs[e].status != Free
    ensures Woken(k.mail[e]) ==>
      SentMessages(k.mail[e]) == GotMessages(k.mail[e]) + [Message(k.envs[e].value, k.envs[e].from)]
    ensures !Woken(k.mail[e]) ==> SentMessages(k.mail[e]) == GotMessages(k.mail[e])
    ensures k.envs[e].recving <==> Blocked(k.mail[e])
    ensures SentMessages(k.mail[e]) == Addressed(k.sent, Party(e, k.allocs[e]))
  {
    hide Inv, EnvInv, RunOk, Coherent, LogOk;
    ExactlyOnceInOrder(k.mail[e]);
  }

  /** In every reachable state: an environment that was RUNNABLE at each of NENV scans of a CPU, between which the CPU's
      own environment was not destroyed, was picked by one of them. */
  lemma RunnableIsPicked(k: Kernel, c: nat, i: nat, n: nat, t: nat) returns (j: nat)
    requires SystemInv(k) && c < |k.log| && i + n <= |k.log[c]| && n >= NENV && t < NENV
    requires forall j | i <= j < i + n ::
               k.log[c][j].Scanned? && |k.log[c][j].envs| == NENV && k.log[c][j].envs[t].status == Runnable
    ensures i <= j < i + n && k.log[c][j].next == Some(t)
  {
    hide Inv, EnvInv, RunOk, Coherent, MailOk;
    j := PickedInTurn(k.log[c], i, n, t);
  }

  /** The first line of env_run. */
  method Requeue(k: Kernel, c: nat)
    requires Inside(k, c)
    modifies k`envs
    ensures Inside(k, c) && |old(k.envs)| == NENV && k.envs == Requeued(old(k.envs), k.cpus[c].env)
    ensures k.cpus[c].env.Some? ==> !OnCpu(k.envs[k.cpus[c].env.value].status)
  {
    hide Inv, EnvInv, Coherent, RunOk, MailOk, IdAfter;
    CurrentIsLive(k, c);
    RequeueKeeps(k.envs, k.cpus, c, k.boot.kern);
    EnvSizes(k.envs, k.envFreeList, k.envFree, k.allocs, k.g);
    var curenv := k.cpus[c].env;
    if curenv.Some? && k.envs[curenv.value].status == Running {
      k.envs := k.envs[curenv.value := k.envs[curenv.value].(status := Runnable)];
      SlotChanged(old(k.envs), k.envFreeList, k.envFree, k.allocs, k.g, curenv.value, k.envs[curenv.value]);
      MailKeeps(old(k.envs), k.mail, k.allocs, k.sent, curenv.value, k.envs[curenv.value]);
      EnvsKeepCoherence(k.tlbs, k.ThisCpu(), k.cpus, old(k.envs), k.envs, k.g, k.boot, k.mem);
    }
  }

  /** The rest of env_run: `e` becomes current and RUNNING on CPU `c`, its directory is loaded, the lock is released.
      The turns of the CPU, which lead to `e`, are now `turns`. */
  method SwitchTo(k: Kernel, c: nat, e: nat, ghost turns: seq<Turn>)
    requires Inside(k, c) && e < NENV == |k.envs| && k.envs[e].status == Runnable
    requires TurnsOk(turns) && HasAfter(turns) == Some(e)
    requires k.cpus[c].env.Some? ==> !OnCpu(k.envs[k.cpus[c].env.value].status)
    modifies k`envs, k`cpus, k`lock, k`mail, k`tlbs, k`log
    ensures SystemInv(k) && k.lock == None
    ensures |old(k.mail)| == NENV && k.mail == old(k.mail)[e := Returned(old(k.envs)[e], old(k.mail)[e])]
    ensures k.envs == old(k.envs)[e := old(k.envs)[e].(status := Running, runs := old(k.envs)[e].runs + 1)]
    ensures old(k.envs)[e].pgdir.Some? && k.cpus == old(k.cpus)[c := Cpu(InUser, Some(e), old(k.envs)[e].pgdir.value)]
    ensures c < |old(k.log)| && k.log == old(k.log)[c := turns]
  {
    hide Inv, EnvInv, Coherent, RunOk, MailOk, BoxOk, IdAfter, Woken, Returned, LogOk, TurnsOk, HasAfter;
    CurrentIsLive(k, c);
    SlotAligned(k.envs, k.envFreeList, k.envFree, k.allocs, k.g, e);
    MailSizes(k.envs, k.mail, k.allocs, k.sent);
    SlotInUse(k.envs, k.envFreeList, k.envFree, k.allocs, k.g, e);
    if |k.cpus| == 1 {
      BufferExists(k, c);
    }
    RunKeeps(k.envs, k.cpus, c, k.boot.kern, e, k.envs[e].pgdir.value);
    ghost var v := k.envs[e].(status := Running, runs := k.envs[e].runs + 1);
    SlotChanged(k.envs, k.envFreeList, k.envFree, k.allocs, k.g, e, v);
    ReturnKeeps(k.envs, k.mail, k.allocs, k.sent, e, v);
    k.mail := k.mail[e := Returned(k.envs[e], k.mail[e])];
    k.envs := k.envs[e := k.envs[e].(status := Running, runs := k.envs[e].runs + 1)];
    LoadAndUnlock(k, c, Some(e), k.envs[e].pgdir.value, InUser, turns);
    JustLoaded(k, c, old(k.tlbs));
  }

  /** `curenv = env; lcr3(d); unlock_kernel()`. */
  method LoadAndUnlock(k: Kernel, c: nat, env: Option<nat>, d: nat, place: Place, ghost turns: seq<Turn>)
    requires c < |k.cpus| && LogOk(k.log, k.cpus) && TurnsOk(turns) && HasAfter(turns) == env
    modifies k`cpus, k`lock, k`tlbs, k`log
    ensures k.cpus == old(k.cpus)[c := Cpu(place, env, d)] && k.lock == None && k.tlbs == Emptied(old(k.tlbs), c)
    ensures c < |old(k.log)| && k.log == old(k.log)[c := turns] && LogOk(k.log, k.cpus)
  {
    hide LogOk, TurnsOk, HasAfter;
    LogKeeps(k.log, k.cpus, c, Cpu(place, env, d), turns);
    k.log := k.log[c := turns];
    k.cpus := k.cpus[c := k.cpus[c].(env := env)];
    k.Lcr3(c, d);
    k.cpus := k.cpus[c := k.cpus[c].(place := place)];
    k.lock := None;
    assert k.cpus == old(k.cpus)[c := Cpu(place, env, d)];
  }

  /** env_run. The assertion that its target is RUNNABLE never fails; a woken target's sys_ipc_recv returns here. */
  method EnvRun(k: Kernel, c: nat, e: nat, ghost turns: seq<Turn>)
    requires Inside(k, c) && e < NENV == |k.envs| && TurnsOk(turns) && HasAfter(turns) == Some(e)
    requires k.envs[e].status == Runnable || (k.cpus[c].env == Some(e) && k.envs[e].status == Running)
    modifies k`envs, k`cpus, k`lock, k`mail, k`tlbs, k`log
    ensures SystemInv(k) && k.lock == None
    ensures |old(k.envs)| == |old(k.mail)| == NENV
      && k.mail == old(k.mail)[e := Returned(old(k.envs)[e], old(k.mail)[e])]
    ensures k.envs == EnvsAfterRun(old(k.envs), old(k.cpus)[c].env, e)
    ensures forall e' | 0 <= e' < NENV ::
      k.envs[e'].status ==
        if e' == e then Running
        else if old(k.cpus)[c].env == Some(e') && old(k.envs)[e'].status == Running then Runnable
        else old(k.envs)[e'].status
    ensures old(k.envs)[e].pgdir.Some? && k.cpus == old(k.cpus)[c := Cpu(InUser, Some(e), old(k.envs)[e].pgdir.value)]
    ensures c < |old(k.log)| && k.log == old(k.log)[c := turns]
  {
    hide Inv, EnvInv, Coherent, RunOk, MailOk, BoxOk, IdAfter, Woken, LogOk, TurnsOk, HasAfter;
    CurrentIsLive(k, c);
    Requeue(k, c);
    assert k.envs[e].status == Runnable;
    SwitchTo(k, c, e, turns);
  }

  lemma BufferExists(k: Kernel, c: nat)
    requires |k.cpus| == 1 && k.TlbOk() && c == 0 == k.ThisCpu()
    ensures c in k.tlbs
  {
  }

  /** After cr3 has been loaded with the directory of the CPU's environment, or with kern_pgdir, the TLB agrees. */
  lemma JustLoaded(k: Kernel, c: nat, tlbs: map<nat, Tlb>)
    requires k.PageInv(NOTHING) && k.EnvsInv() && c < |k.cpus| && k.tlbs == Emptied(tlbs, c)
    requires k.cpus[c].env == None ==> k.cpus[c].cr3 == k.boot.kern
    requires k.cpus[c].env.Some? ==>
      var e := k.cpus[c].env.value;
      e < NENV == |k.envs| && k.envs[e].status != Free && k.envs[e].pgdir == Some(k.cpus[c].cr3)
    ensures c in tlbs ==> Coherent(k.tlbs, c, k.cpus, k.envs, k.g, k.boot, k.mem)
  {
    hide Inv, EnvInv;
    Sizes(k.C(), k.g, k.mem, k.boot, NOTHING);
    if k.cpus[c].env.Some? {
      SlotInUse(k.envs, k.envFreeList, k.envFree, k.allocs, k.g, k.cpus[c].env.value);
      assert Root(k.g, k.boot, k.cpus[c].cr3);
    }
    if c in tlbs {
      LoadingIsCoherent(tlbs, c, k.cpus, k.envs, k.g, k.boot, k.mem);
    }
  }

  lemma CurrentIsLive(k: Kernel, c: nat)
    requires SystemInv(k) && c < |k.cpus|
    ensures |k.envs| == NENV
    ensures k.cpus[c].env.Some? ==> k.cpus[c].env.value < NENV && k.envs[k.cpus[c].env.value].status != Free
  {
    hide Inv, EnvInv, MailOk;
    assert CpuOk(k.cpus[c], c, k.lock, k.envs, k.boot.kern);
  }

  /** Some environment can still run, so a CPU may halt instead of dropping into the monitor. */
  predicate SomethingToRun(envs: seq<Env>) {
    exists e :: 0 <= e < |envs| && (envs[e].status == Runnable || envs[e].status == Running || envs[e].status == Dying)
  }

  /** No environment but `e` can run. */
  predicate NothingElse(envs: seq<Env>, e: nat) {
    forall e' | 0 <= e' < |envs| && e' != e :: envs[e'].status != Runnable && !OnCpu(envs[e'].status)
  }

  /** Once `e` cannot run any more, nothing can run exactly if nothing else could. */
  lemma LastOne(envs: seq<Env>, e: nat, v: Env)
    requires e < |envs| && (v.status == Free || v.status == NotRunnable)
    ensures !SomethingToRun(envs[e := v]) <==> NothingElse(envs, e)
  {
    if !SomethingToRun(envs[e := v]) {
      forall e' | 0 <= e' < |envs| && e' != e ensures envs[e'].status != Runnable && !OnCpu(envs[e'].status) {
        assert envs[e := v][e'] == envs[e'];
      }
    }
  }

  /** sched_halt; `dead` means it stays in the monitor for ever. */
  method SchedHalt(k: Kernel, c: nat, ghost turns: seq<Turn>) returns (dead: bool)
    requires Inside(k, c) && TurnsOk(turns) && HasAfter(turns) == None
    requires k.cpus[c].env.Some? ==> !OnCpu(k.envs[k.cpus[c].env.value].status)
    modifies k`cpus, k`lock, k`tlbs, k`log
    ensures dead <==> !SomethingToRun(k.envs)
    ensures |k.envs| == NENV
    ensures dead <==> forall e | 0 <= e < NENV ::
      k.envs[e].status != Runnable && k.envs[e].status != Running && k.envs[e].status != Dying
    ensures dead ==> Inside(k, c) && k.cpus == old(k.cpus) && k.log == old(k.log)
    ensures !dead ==> SystemInv(k) && k.lock == None && k.cpus == old(k.cpus)[c := Cpu(InHalt, None, k.boot.kern)]
    ensures !dead ==> c < |old(k.log)| && k.log == old(k.log)[c := turns]
  {
    hide Inv, EnvInv, Coherent, RunOk, MailOk, LogOk, TurnsOk, HasAfter;
    CurrentIsLive(k, c);
    var i := 0;
    while i < NENV
      invariant 0 <= i <= NENV
      invariant forall e | 0 <= e < i :: !(k.envs[e].status == Runnable || OnCpu(k.envs[e].status))
    {
      if k.envs[i].status == Runnable || k.envs[i].status == Running || k.envs[i].status == Dying {
        break;
      }
      i := i + 1;
    }
    if i == NENV {
      return true;
    }
    if |k.cpus| == 1 {
      BufferExists(k, c);
    }
    HaltKeeps(k.envs, k.cpus, c, k.boot.kern);
    LoadAndUnlock(k, c, None, k.boot.kern, InHalt, turns);
    JustLoaded(k, c, old(k.tlbs));
    return false;
  }

  /** How a CPU leaves the kernel through sched_yield; the scan is one more turn of the CPU. */
  ghost predicate Scheduled(envs: seq<Env>, cpus: seq<Cpu>, mail: seq<History>, log: seq<seq<Turn>>,
                            envs': seq<Env>, cpus': seq<Cpu>, mail': seq<History>, log': seq<seq<Turn>>, c: nat,
                            kern: nat)
    requires |envs| == |mail| == NENV && c < |cpus| && (cpus[c].env.Some? ==> cpus[c].env.value < NENV)
  {
    var cur := cpus[c].env;
    var next := Pick(envs, StartOf(cur));
    && c < |cpus'| && c < |log| && log' == log[c := log[c] + [Scanned(envs, StartOf(cur), cpus'[c].env)]]
    && if next.Some? || (cur.Some? && envs[cur.value].status == Running) then
      var e := if next.Some? then next.value else cur.value;
      && envs' == EnvsAfterRun(envs, cur, e)
      && envs[e].pgdir.Some? && cpus' == cpus[c := Cpu(InUser, Some(e), envs[e].pgdir.value)]
      && mail' == mail[e := Returned(envs[e], mail[e])]
    else
      envs' == envs && mail' == mail && cpus' == cpus[c := Cpu(InHalt, None, kern)]
  }

  /** Which environment a CPU that had `own` goes on with: the first RUNNABLE one after its own, else its own if that is
      RUNNING, else none. */
  ghost predicate GoesOnWith(envs: seq<Env>, own: Option<nat>, now: Option<nat>) {
    && |envs| == NENV && (own.Some? ==> own.value < NENV)
    && if exists e :: 0 <= e < NENV && envs[e].status == Runnable then
         now.Some? && NearestAfter(envs, if own.Some? then own.value else -1, now.value)
       else
         now == if own.Some? && envs[own.value].status == Running then own else None
  }

  /** CPU `c`, which had environment `own` and these turns, has been through the scheduler: it runs the environment it
      goes on with, or halts; the one it had is RUNNABLE if it was RUNNING and does not go on; nothing else changes but
      the counter of the environment that runs. */
  ghost predicate Rescheduled(envs: seq<Env>, own: Option<nat>, turns: seq<Turn>, cpus: seq<Cpu>, log: seq<seq<Turn>>,
                              c: nat, envs': seq<Env>, cpus': seq<Cpu>, log': seq<seq<Turn>>)
  {
    && |envs| == |envs'| == NENV && c < |cpus| == |cpus'| == |log| == |log'|
    && (forall c' | 0 <= c' < |cpus| && c' != c :: cpus'[c'] == cpus[c'] && log'[c'] == log[c'])
    && var now := cpus'[c].env;
      && GoesOnWith(envs, own, now)
      && cpus'[c].place == (if now.Some? then InUser else InHalt)
      && log'[c] == turns + [Scanned(envs, if own.Some? then own.value else -1, now)]
      && forall e | 0 <= e < NENV ::
           && envs'[e] == envs[e].(status := envs'[e].status, runs := envs'[e].runs)
           && envs'[e].runs == envs[e].runs + (if now == Some(e) then 1 else 0)
           && envs'[e].status ==
              if now == Some(e) then Running
              else if own == Some(e) && envs[e].status == Running then Runnable
              else envs[e].status
  }

  lemma PickFirst(envs: seq<Env>, actual: int)
    requires |envs| == NENV && -1 <= actual < NENV
    ensures Pick(envs, actual).Some? ==> NearestAfter(envs, actual, Pick(envs, actual).value)
  {
    hide FirstAfter;
    var d := PickFromFirst(envs, actual, 1);
  }

  lemma PickGoesOn(envs: seq<Env>, own: Option<nat>)
    requires |envs| == NENV && (own.Some? ==> own.value < NENV)
    ensures var next := Pick(envs, StartOf(own));
      GoesOnWith(envs, own, if next.Some? then next
                            else if own.Some? && envs[own.value].status == Running then own else None)
  {
    hide Pick, NearestAfter;
    PickNoneExactly(envs, StartOf(own));
    PickFirst(envs, StartOf(own));
    var next := Pick(envs, StartOf(own));
    if next.Some? {
      assert envs[next.value].status == Runnable;
    }
  }

  lemma ScheduledMeans(envs: seq<Env>, cpus: seq<Cpu>, mail: seq<History>, log: seq<seq<Turn>>, envs': seq<Env>,
                       cpus': seq<Cpu>, mail': seq<History>, log': seq<seq<Turn>>, c: nat, kern: nat)
    requires |envs| == |mail| == NENV && c < |cpus| == |log| && (cpus[c].env.Some? ==> cpus[c].env.value < NENV)
    requires Scheduled(envs, cpus, mail, log, envs', cpus', mail', log', c, kern)
    ensures Rescheduled(envs, cpus[c].env, log[c], cpus, log, c, envs', cpus', log')
  {
    hide Pick, GoesOnWith, Returned;
    PickGoesOn(envs, cpus[c].env);
  }

  /** Rescheduling takes nothing back from any history, and brings no environment to life. */
  lemma ScheduledGrows(envs: seq<Env>, cpus: seq<Cpu>, mail: seq<History>, envs': seq<Env>, cpus': seq<Cpu>,
                       mail': seq<History>, log: seq<seq<Turn>>, log': seq<seq<Turn>>, c: nat, kern: nat)
    requires |envs| == |mail| == NENV && c < |cpus| && (cpus[c].env.Some? ==> cpus[c].env.value < NENV)
    requires Scheduled(envs, cpus, mail, log, envs', cpus', mail', log', c, kern)
    ensures Forward(log, log')
    ensures Grows(envs, mail, envs', mail', None)
    ensures forall e | 0 <= e < NENV && envs'[e].status != Free :: envs[e].status != Free
  {
    hide Pick;
    var cur := cpus[c].env;
    var next := Pick(envs, StartOf(cur));
    OneForward(log, c, log[c] + [Scanned(envs, StartOf(cur), cpus'[c].env)]);
    if next.Some? || (cur.Some? && envs[cur.value].status == Running) {
      var e := if next.Some? then next.value else cur.value;
      OneGrows(envs, envs', mail, e, Returned(envs[e], mail[e]), None);
    } else {
      SameGrows(envs, envs', mail, None);
    }
  }

  /** The loop of sched_yield, which goes on to env_run with the slot it finds. */
  method FindRunnable(k: Kernel, actual: int) returns (idx: Option<nat>)
    requires |k.envs| == NENV
    ensures idx == Pick(k.envs, actual)
  {
    var i := 1;
    while i <= NENV
      invariant 1 <= i <= NENV + 1 && PickFrom(k.envs, actual, i) == Pick(k.envs, actual)
    {
      var idx := (actual + i) % NENV;
      if k.envs[idx].status == Runnable {
        return Some(idx);
      }
      i := i + 1;
    }
    return None;
  }

  method SchedYield(k: Kernel, c: nat) returns (dead: bool)
    requires Inside(k, c)
    modifies k`envs, k`cpus, k`lock, k`mail, k`tlbs, k`log
    ensures !dead ==>
      && SystemInv(k) && k.lock == None && |old(k.envs)| == |old(k.mail)| == NENV
      && Scheduled(old(k.envs), old(k.cpus), old(k.mail), old(k.log), k.envs, k.cpus, k.mail, k.log, c, k.boot.kern)
      && c < |old(k.log)|
      && Rescheduled(old(k.envs), old(k.cpus)[c].env, old(k.log)[c], old(k.cpus), old(k.log), c, k.envs, k.cpus, k.log)
    ensures dead ==>
      Inside(k, c) && k.envs == old(k.envs) && k.cpus == old(k.cpus) && k.mail == old(k.mail) && k.log == old(k.log)
    ensures dead <==> !SomethingToRun(old(k.envs))
    ensures |old(k.envs)| == NENV
    ensures dead <==> forall e | 0 <= e < NENV ::
      old(k.envs)[e].status != Runnable && old(k.envs)[e].status != Running && old(k.envs)[e].status != Dying
    ensures !dead && k.cpus[c].place == InHalt ==> forall e | 0 <= e < NENV :: k.envs[e].status != Runnable
  {
    hide Inv, EnvInv, Coherent, RunOk, MailOk, LogOk, TurnsOk, HasAfter, Pick, Rescheduled;
    LogOf(k.log, k.cpus, c);
    CurrentIsLive(k, c);
    MailSizes(k.envs, k.mail, k.allocs, k.sent);
    var curenv := k.cpus[c].env;
    var actual := if curenv.Some? then curenv.value else -1;
    PickNoneExactly(k.envs, actual);
    ghost var turns := k.log[c];
    var idx := FindRunnable(k, actual);
    if idx.Some? {
      NextTurn(turns, Scanned(k.envs, actual, idx));
      EnvRun(k, c, idx.value, turns + [Scanned(k.envs, actual, idx)]);
      ScheduledMeans(old(k.envs), old(k.cpus), old(k.mail), old(k.log), k.envs, k.cpus, k.mail, k.log, c, k.boot.kern);
      return false;
    }
    if curenv.Some? && k.envs[curenv.value].status == Running {
      NextTurn(turns, Scanned(k.envs, actual, curenv));
      EnvRun(k, c, curenv.value, turns + [Scanned(k.envs, actual, curenv)]);
      ScheduledMeans(old(k.envs), old(k.cpus), old(k.mail), old(k.log), k.envs, k.cpus, k.mail, k.log, c, k.boot.kern);
      return false;
    }
    NextTurn(turns, Scanned(k.envs, actual, None));
    dead := SchedHalt(k, c, turns + [Scanned(k.envs, actual, None)]);
    if !dead {
      ScheduledMeans(old(k.envs), old(k.cpus), old(k.mail), old(k.log), k.envs, k.cpus, k.mail, k.log, c, k.boot.kern);
    }
  }
}

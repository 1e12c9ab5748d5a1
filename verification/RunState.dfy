/** Which environment runs where: the invariant of CPUs and environments, and the steps that keep it. */
module RunState {
  import opened Layout
  import opened EnvState
  import opened Sched
  import opened Pmap

  predicate OnCpu(s: Status) { s == Running || s == Dying }

  predicate IsCurrent(cpus: seq<Cpu>, e: nat) {
    exists c :: 0 <= c < |cpus| && cpus[c].env == Some(e)
  }

  /** CPU `c` on its own. Outside the kernel it runs a RUNNING or DYING environment on that environment's directory,
      or none on kern_pgdir. The one inside the kernel may be in between. */
  ghost predicate CpuOk(v: Cpu, c: nat, lock: Option<nat>, envs: seq<Env>, kern: nat)
    requires |envs| == NENV
  {
    && (v.place == InKernel <==> lock == Some(c))
    && (v.env.Some? ==> v.env.value < NENV && envs[v.env.value].status != Free)
    && (v.place == InUser ==> v.env.Some?)
    && (v.place == InHalt ==> v.env == None)
    && if v.place == InKernel then
         v.cr3 == kern || (v.env.Some? && envs[v.env.value].pgdir == Some(v.cr3))
       else if v.env.Some? then
         OnCpu(envs[v.env.value].status) && envs[v.env.value].pgdir == Some(v.cr3)
       else
         v.cr3 == kern
  }

  ghost predicate RunOk(envs: seq<Env>, cpus: seq<Cpu>, lock: Option<nat>, kern: nat) {
    && |envs| == NENV
    && (lock.Some? ==> lock.value < |cpus|)
    && (forall c | 0 <= c < |cpus| :: CpuOk(cpus[c], c, lock, envs, kern))
    && (forall c, c' | 0 <= c < |cpus| && 0 <= c' < |cpus| && cpus[c].env.Some? && cpus[c].env == cpus[c'].env ::
          c == c')
    && (forall e: nat | e < NENV && OnCpu(envs[e].status) :: IsCurrent(cpus, e))
    && (forall e: nat | e < NENV && envs[e].status != Free && envs[e].recving :: envs[e].status == NotRunnable)
  }

  /** The turns of every CPU lead to the environment it has now. */
  ghost predicate LogOk(log: seq<seq<Turn>>, cpus: seq<Cpu>) {
    |log| == |cpus| && forall c | 0 <= c < |cpus| :: TurnsOk(log[c]) && cpus[c].env == HasAfter(log[c])
  }

  lemma LogOf(log: seq<seq<Turn>>, cpus: seq<Cpu>, c: nat)
    requires LogOk(log, cpus) && c < |cpus|
    ensures |log| == |cpus| && TurnsOk(log[c]) && cpus[c].env == HasAfter(log[c])
  {
  }

  /** CPU `c` changes, with or without further turns. */
  lemma LogKeeps(log: seq<seq<Turn>>, cpus: seq<Cpu>, c: nat, v: Cpu, turns: seq<Turn>)
    requires LogOk(log, cpus) && c < |cpus| && TurnsOk(turns) && v.env == HasAfter(turns)
    ensures |log| == |cpus| && LogOk(log[c := turns], cpus[c := v])
  {
    hide HasAfter, TurnsOk;
  }

  /** Nothing is taken back from any log. */
  ghost predicate Forward(log: seq<seq<Turn>>, log': seq<seq<Turn>>) {
    |log| == |log'| && forall c | 0 <= c < |log| :: log[c] <= log'[c]
  }

  lemma OneForward(log: seq<seq<Turn>>, c: nat, turns: seq<Turn>)
    requires c < |log|
    ensures Forward(log, log)
    ensures log[c] <= turns ==> Forward(log, log[c := turns])
  {
  }

  lemma ThenForward(log: seq<seq<Turn>>, log1: seq<seq<Turn>>, log2: seq<seq<Turn>>)
    requires Forward(log, log1) && Forward(log1, log2)
    ensures Forward(log, log2)
  {
  }

  /** While no CPU is inside the kernel, an environment is RUNNING or DYING exactly when it is cpu_env of a CPU, and
      then of one CPU only. */
  lemma RunningMeansCurrent(envs: seq<Env>, cpus: seq<Cpu>, kern: nat, e: nat)
    requires RunOk(envs, cpus, None, kern) && e < NENV
    ensures OnCpu(envs[e].status) <==> IsCurrent(cpus, e)
    ensures forall c, c' | 0 <= c < |cpus| && 0 <= c' < |cpus| && cpus[c].env == Some(e) == cpus[c'].env :: c == c'
  {
  }

  /** A trap or a timer interrupt: the CPU now waits for the lock. */
  lemma TrapKeeps(envs: seq<Env>, cpus: seq<Cpu>, lock: Option<nat>, kern: nat, c: nat)
    requires RunOk(envs, cpus, lock, kern) && c < |cpus| && (cpus[c].place == InUser || cpus[c].place == InHalt)
    ensures RunOk(envs, cpus[c := cpus[c].(place := Waiting)], lock, kern)
  {
    var cpus' := cpus[c := cpus[c].(place := Waiting)];
    CurrentSame(cpus, cpus');
  }

  /** Where the CPUs' environments are the same, the same environments are current. */
  lemma CurrentSame(cpus: seq<Cpu>, cpus': seq<Cpu>)
    requires |cpus| == |cpus'| && forall c | 0 <= c < |cpus| :: cpus'[c].env == cpus[c].env
    ensures forall e: nat :: IsCurrent(cpus, e) <==> IsCurrent(cpus', e)
  {
    forall e: nat ensures IsCurrent(cpus, e) <==> IsCurrent(cpus', e) {
      if IsCurrent(cpus, e) {
        var c :| 0 <= c < |cpus| && cpus[c].env == Some(e);
        assert cpus'[c].env == Some(e);
      }
      if IsCurrent(cpus', e) {
        var c :| 0 <= c < |cpus'| && cpus'[c].env == Some(e);
        assert cpus[c].env == Some(e);
      }
    }
  }

  lemma AcquireKeeps(envs: seq<Env>, cpus: seq<Cpu>, kern: nat, c: nat)
    requires RunOk(envs, cpus, None, kern) && c < |cpus| && cpus[c].place == Waiting
    ensures RunOk(envs, cpus[c := cpus[c].(place := InKernel)], Some(c), kern)
  {
    var cpus' := cpus[c := cpus[c].(place := InKernel)];
    CurrentSame(cpus, cpus');
    forall c' | 0 <= c' < |cpus| ensures CpuOk(cpus'[c'], c', Some(c), envs, kern) {
      assert CpuOk(cpus[c'], c', None, envs, kern);
    }
  }

  /** An environment that is not RUNNING or DYING is on no CPU, except perhaps the one inside the kernel. */
  lemma OffEveryCpu(envs: seq<Env>, cpus: seq<Cpu>, c: nat, kern: nat, e: nat)
    requires RunOk(envs, cpus, Some(c), kern) && e < NENV && !OnCpu(envs[e].status)
    ensures IsCurrent(cpus, e) ==> c < |cpus| && cpus[c].env == Some(e)
    ensures envs[e].status == Free ==> !IsCurrent(cpus, e)
  {
    if IsCurrent(cpus, e) {
      var c' :| 0 <= c' < |cpus| && cpus[c'].env == Some(e);
      assert CpuOk(cpus[c'], c', Some(c), envs, kern);
    }
  }

  /** Changing an environment that no CPU runs, or that of the CPU inside the kernel, to a state without a CPU. */
  lemma OffCpuChangeKeeps(envs: seq<Env>, cpus: seq<Cpu>, c: nat, kern: nat, e: nat, v: Env)
    requires RunOk(envs, cpus, Some(c), kern) && e < NENV
    requires IsCurrent(cpus, e) ==> cpus[c].env == Some(e) && v.status != Free && v.pgdir == envs[e].pgdir
    requires !OnCpu(v.status)
    requires v.status != Free && v.recving ==> v.status == NotRunnable
    ensures RunOk(envs[e := v], cpus, Some(c), kern)
  {
    forall c' | 0 <= c' < |cpus| ensures CpuOk(cpus[c'], c', Some(c), envs[e := v], kern) {
      assert CpuOk(cpus[c'], c', Some(c), envs, kern);
      if cpus[c'].env == Some(e) {
        assert IsCurrent(cpus, e);
      }
    }
  }

  /** Changing what the protocol does not look at. */
  lemma OtherFieldsKeep(envs: seq<Env>, envs': seq<Env>, cpus: seq<Cpu>, lock: Option<nat>, kern: nat)
    requires RunOk(envs, cpus, lock, kern) && |envs'| == NENV
    requires forall e | 0 <= e < NENV :: envs'[e].status == envs[e].status && envs'[e].pgdir == envs[e].pgdir
    requires forall e | 0 <= e < NENV && envs'[e].recving :: envs[e].recving
    ensures RunOk(envs', cpus, lock, kern)
  {
    forall c | 0 <= c < |cpus| ensures CpuOk(cpus[c], c, lock, envs', kern) {
      assert CpuOk(cpus[c], c, lock, envs, kern);
    }
  }

  /** sys_env_set_status keeps the run invariant exactly if no other CPU runs the target, and if a target that waits for
      a message is not made RUNNABLE. */
  lemma StatusKeepsExactly(envs: seq<Env>, cpus: seq<Cpu>, c: nat, kern: nat, t: nat, status: Status)
    requires RunOk(envs, cpus, Some(c), kern) && c < |cpus| && t < NENV && envs[t].status != Free
    requires cpus[c].env.Some? && cpus[c].env.value < NENV && envs[cpus[c].env.value].status == Running
    requires status == Runnable || status == NotRunnable
    ensures RunOk(envs[t := envs[t].(status := status)], cpus, Some(c), kern) <==>
      (IsCurrent(cpus, t) ==> cpus[c].env == Some(t)) && (envs[t].recving ==> status == NotRunnable)
  {
    var envs' := envs[t := envs[t].(status := status)];
    if (IsCurrent(cpus, t) ==> cpus[c].env == Some(t)) && (envs[t].recving ==> status == NotRunnable) {
      OffCpuChangeKeeps(envs, cpus, c, kern, t, envs'[t]);
    } else if IsCurrent(cpus, t) && cpus[c].env != Some(t) {
      var c' :| 0 <= c' < |cpus| && cpus[c'].env == Some(t);
      assert CpuOk(cpus[c'], c', Some(c), envs, kern);
      assert !CpuOk(cpus[c'], c', Some(c), envs', kern);
    }
  }

  /** An environment running on another CPU becomes a zombie there. */
  lemma DyingKeeps(envs: seq<Env>, cpus: seq<Cpu>, c: nat, kern: nat, e: nat)
    requires RunOk(envs, cpus, Some(c), kern) && e < NENV && envs[e].status == Running
    ensures RunOk(envs[e := envs[e].(status := Dying)], cpus, Some(c), kern)
  {
    var envs' := envs[e := envs[e].(status := Dying)];
    forall c' | 0 <= c' < |cpus| ensures CpuOk(cpus[c'], c', Some(c), envs', kern) {
      assert CpuOk(cpus[c'], c', Some(c), envs, kern);
    }
  }

  /** env_free of the current environment: the CPU is on kern_pgdir and has no environment any more. */
  lemma FreeCurrentKeeps(envs: seq<Env>, cpus: seq<Cpu>, c: nat, kern: nat, e: nat, v: Env)
    requires RunOk(envs, cpus, Some(c), kern) && c < |cpus| && e < NENV && cpus[c].env == Some(e)
    requires v.status == Free
    ensures RunOk(envs[e := v], cpus[c := cpus[c].(cr3 := kern, env := None)], Some(c), kern)
  {
    var envs', cpus' := envs[e := v], cpus[c := cpus[c].(cr3 := kern, env := None)];
    forall c' | 0 <= c' < |cpus| ensures CpuOk(cpus'[c'], c', Some(c), envs', kern) {
      assert CpuOk(cpus[c'], c', Some(c), envs, kern);
    }
    OthersStayCurrent(cpus, cpus', c, e);
  }

  /** envs[] and CPUs as env_destroy on CPU `c` leaves them before it reschedules. */
  function EnvsAfterDestroy(envs: seq<Env>, cpus: seq<Cpu>, c: nat, e: nat, link: Option<nat>): seq<Env>
    requires c < |cpus| && e < |envs|
  {
    if envs[e].status == Running && cpus[c].env != Some(e) then envs[e := envs[e].(status := Dying)]
    else envs[e := envs[e].(pgdir := None, status := Free, link := link)]
  }

  function CpusAfterDestroy(cpus: seq<Cpu>, c: nat, e: nat, kern: nat): seq<Cpu>
    requires c < |cpus|
  {
    if cpus[c].env == Some(e) then cpus[c := cpus[c].(cr3 := kern, env := None)] else cpus
  }

  /** env_destroy, called while the CPU's own environment is RUNNING, keeps the run invariant exactly if its target is
      not a zombie: a zombie is still current on another CPU when its slot is freed. */
  lemma DestroyKeepsExactly(envs: seq<Env>, cpus: seq<Cpu>, c: nat, kern: nat, e: nat, link: Option<nat>)
    requires RunOk(envs, cpus, Some(c), kern) && c < |cpus| && e < NENV && envs[e].status != Free
    requires cpus[c].env.Some? && cpus[c].env.value < NENV && envs[cpus[c].env.value].status == Running
    ensures RunOk(EnvsAfterDestroy(envs, cpus, c, e, link), CpusAfterDestroy(cpus, c, e, kern), Some(c), kern) <==>
            envs[e].status != Dying
  {
    var envs' := EnvsAfterDestroy(envs, cpus, c, e, link);
    if envs[e].status == Dying {
      assert IsCurrent(cpus, e);
      var c' :| 0 <= c' < |cpus| && cpus[c'].env == Some(e);
      assert !CpuOk(cpus[c'], c', Some(c), envs', kern);
    } else if cpus[c].env == Some(e) {
      FreeCurrentKeeps(envs, cpus, c, kern, e, envs'[e]);
    } else if envs[e].status == Running {
      DyingKeeps(envs, cpus, c, kern, e);
    } else {
      OffEveryCpu(envs, cpus, c, kern, e);
      OffCpuChangeKeeps(envs, cpus, c, kern, e, envs'[e]);
    }
  }

  /** Taking environment `e` off CPU `c` leaves every other environment current where it was. */
  lemma OthersStayCurrent(cpus: seq<Cpu>, cpus': seq<Cpu>, c: nat, e: nat)
    requires c < |cpus| == |cpus'| && cpus[c].env == Some(e)
    requires forall c' | 0 <= c' < |cpus| && c' != c :: cpus'[c'].env == cpus[c'].env
    ensures forall e': nat | e' != e && IsCurrent(cpus, e') :: IsCurrent(cpus', e')
  {
    forall e': nat | e' != e && IsCurrent(cpus, e') ensures IsCurrent(cpus', e') {
      var c' :| 0 <= c' < |cpus| && cpus[c'].env == Some(e');
      assert cpus'[c'].env == Some(e');
    }
  }

  /** The first line of env_run: the current environment goes back to RUNNABLE if it is RUNNING. */
  function Requeued(envs: seq<Env>, cur: Option<nat>): seq<Env>
    requires cur.Some? ==> cur.value < |envs|
  {
    if cur.Some? && envs[cur.value].status == Running then envs[cur.value := envs[cur.value].(status := Runnable)]
    else envs
  }

  /** envs[] after env_run. */
  function EnvsAfterRun(envs: seq<Env>, cur: Option<nat>, e: nat): seq<Env>
    requires (cur.Some? ==> cur.value < |envs|) && e < |envs|
  {
    var q := Requeued(envs, cur);
    q[e := q[e].(status := Running, runs := q[e].runs + 1)]
  }

  lemma RequeueKeeps(envs: seq<Env>, cpus: seq<Cpu>, c: nat, kern: nat)
    requires RunOk(envs, cpus, Some(c), kern) && c < |cpus|
    requires cpus[c].env.Some? ==> cpus[c].env.value < NENV && envs[cpus[c].env.value].status != Dying
    ensures RunOk(Requeued(envs, cpus[c].env), cpus, Some(c), kern)
    ensures cpus[c].env.Some? ==> !OnCpu(Requeued(envs, cpus[c].env)[cpus[c].env.value].status)
  {
    if cpus[c].env.Some? && envs[cpus[c].env.value].status == Running {
      var e := cpus[c].env.value;
      OffCpuChangeKeeps(envs, cpus, c, kern, e, envs[e].(status := Runnable));
    }
  }

  /** env_run and the release of the lock: the CPU runs `e` on its directory. */
  lemma RunKeeps(envs: seq<Env>, cpus: seq<Cpu>, c: nat, kern: nat, e: nat, d: nat)
    requires RunOk(envs, cpus, Some(c), kern) && c < |cpus| && e < NENV
    requires cpus[c].env.Some? ==> cpus[c].env.value < NENV && !OnCpu(envs[cpus[c].env.value].status)
    requires envs[e].status == Runnable && envs[e].pgdir == Some(d)
    ensures RunOk(envs[e := envs[e].(status := Running, runs := envs[e].runs + 1)], cpus[c := Cpu(InUser, Some(e), d)],
                  None, kern)
  {
    var envs' := envs[e := envs[e].(status := Running, runs := envs[e].runs + 1)];
    var cpus' := cpus[c := Cpu(InUser, Some(e), d)];
    forall c' | 0 <= c' < |cpus| ensures CpuOk(cpus'[c'], c', None, envs', kern) {
      assert CpuOk(cpus[c'], c', Some(c), envs, kern);
    }
    forall e': nat | e' < NENV && OnCpu(envs'[e'].status) ensures IsCurrent(cpus', e') {
      if e' == e {
        assert cpus'[c].env == Some(e);
      } else {
        var c' :| 0 <= c' < |cpus| && cpus[c'].env == Some(e');
        assert cpus'[c'].env == Some(e');
      }
    }
    forall c', c'' | 0 <= c' < |cpus| && 0 <= c'' < |cpus| && cpus'[c'].env.Some? && cpus'[c'].env == cpus'[c''].env
      ensures c' == c''
    {
      assert CpuOk(cpus[c'], c', Some(c), envs, kern) && CpuOk(cpus[c''], c'', Some(c), envs, kern);
    }
  }

  /** sched_halt: the CPU leaves its environment, loads kern_pgdir and releases the lock. */
  lemma HaltKeeps(envs: seq<Env>, cpus: seq<Cpu>, c: nat, kern: nat)
    requires RunOk(envs, cpus, Some(c), kern) && c < |cpus|
    requires cpus[c].env.Some? ==> cpus[c].env.value < NENV && !OnCpu(envs[cpus[c].env.value].status)
    ensures RunOk(envs, cpus[c := Cpu(InHalt, None, kern)], None, kern)
  {
    var cpus' := cpus[c := Cpu(InHalt, None, kern)];
    forall c' | 0 <= c' < |cpus| ensures CpuOk(cpus'[c'], c', None, envs, kern) {
      assert CpuOk(cpus[c'], c', Some(c), envs, kern);
    }
    forall e: nat | e < NENV && OnCpu(envs[e].status) ensures IsCurrent(cpus', e) {
      var c' :| 0 <= c' < |cpus| && cpus[c'].env == Some(e);
      assert cpus'[c'].env == Some(e);
    }
  }
}

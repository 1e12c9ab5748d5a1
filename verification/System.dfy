/** Whole runs: any interleaving of any number of CPUs, with arbitrary user programs. */
module System {
  import opened Layout
  import opened Graph
  import opened PageState
  import opened Steps
  import opened EnvState
  import opened Sched
  import opened Tlb
  import opened Pmap
  import opened EnvOps
  import opened AddressSpace
  import opened Syscall
  import opened RunState
  import opened Ipc
  import opened Run
  import opened Traps
  import opened Effects
  import opened KernelView
  import opened WriteOnce
  import opened Isolation

  /** One step of one CPU. Taking the kernel lock, serving the trap and leaving the kernel are separate steps, so that
      other CPUs may trap, spin and write their memory in between; and between any two steps the hardware may cache and
      forget translations. */
  datatype Action =
    | Interrupt(c: nat)
    | TakeLock(c: nat, tf: Trapframe)
    | ServeTrap(c: nat, cause: Cause)
    | LeaveKernel(c: nat)
    | Write(c: nat, va: nat, i: nat, w: Word)
    | Cache(c: nat, v: Page)
    | Evict(c: nat, v: Page)

  /** How far the CPU inside the kernel has got. */
  datatype Stage = Outside | Entered | Served | Ended

  /** Before serving a trap the CPU's environment is RUNNING; after it the environment is no zombie. */
  ghost predicate StageOk(k: Kernel, stage: Stage)
    reads k
  {
    match stage
    case Outside => SystemInv(k) && k.lock == None
    case Entered => SystemInv(k) && k.lock.Some? && Serving(k, k.lock.value)
    case Served => SystemInv(k) && k.lock.Some? && Inside(k, k.lock.value)
    case Ended => true
  }

  lemma InsideElsewhere(k: Kernel, c: nat)
    requires SystemInv(k) && c < |k.cpus| && (k.cpus[c].place == InUser || k.cpus[c].place == InHalt)
    ensures k.lock != Some(c)
  {
    hide Inv, EnvInv, MailOk;
    assert CpuOk(k.cpus[c], c, k.lock, k.envs, k.boot.kern);
  }

  function After(r: Ending): Stage {
    match r case Returns(_) => Served case Left => Outside case Over => Ended
  }

  /** Whether a step is possible now. */
  predicate Enabled(k: Kernel, action: Action, stage: Stage)
    reads k
  {
    match action
    case Interrupt(c) => c < |k.cpus| && (k.cpus[c].place == InUser || k.cpus[c].place == InHalt)
    case TakeLock(c, _) => stage == Outside && c < |k.cpus| && k.cpus[c].place == Waiting
    case ServeTrap(c, cause) =>
      && stage == Entered && k.lock == Some(c)
      && (cause.SystemCall? ==>
            && c < |k.cpus| && k.cpus[c].env.Some? && k.cpus[c].env.value < NENV == |k.envs|
            && WordsOk(cause.call) && HasRoom(k, k.cpus[c].env.value, cause.call)
            && Admitted(k.envs, k.cpus, k.cpus[c].env.value, cause.call))
    case LeaveKernel(c) => stage == Served && k.lock == Some(c)
    case Write(c, va, i, _) => c < |k.cpus| && k.cpus[c].place == InUser && va < UTOP && i < NPTENTRIES
    case Cache(_, _) => true
    case Evict(_, _) => true
  }

  /** The steps that end the run: the traps that do, and leaving the kernel when nothing can run. */
  ghost predicate Ends(m: Moment, action: Action) {
    match action
    case ServeTrap(c, cause) =>
      c < |m.cpus| && m.cpus[c].env.Some? && TrapEnds(m, m.cpus[c].env.value, cause)
    case LeaveKernel(_) => !SomethingToRun(m.envs)
    case _ => false
  }

  /** The environment that acts in a step: by entering the kernel or by a system call. */
  function Acting(cpus: seq<Cpu>, action: Action): Option<nat> {
    if action.TakeLock? || MakesCall(action) then if action.c < |cpus| then cpus[action.c].env else None
    else None
  }

  predicate MakesCall(action: Action) { action.ServeTrap? && action.cause.SystemCall? }

  /** How a served call has ended, and with which return value in the caller's eax. */
  function EndOf(next: Stage, envs: seq<Env>, cur: nat): Ending {
    match next
    case Served => if cur < |envs| then Returns(envs[cur].tf.eax) else Over
    case Outside => Left
    case _ => Over
  }

  /** What a step does to the messages. Every history goes on, and other environments than the one that acts are only
      touched; no live environment's slot is allocated anew; a system call delivers what it says, and no other step
      delivers anything. */
  ghost predicate StepLogged(action: Action, next: Stage, cpus: seq<Cpu>, envs: seq<Env>, mail: seq<History>,
                             allocs: seq<nat>, sent: seq<Delivery>, envs': seq<Env>, mail': seq<History>,
                             allocs': seq<nat>, sent': seq<Delivery>)
  {
    && |envs| == |mail| == |allocs| == NENV
    && (next != Ended ==> Grows(envs, mail, envs', mail', Acting(cpus, action)) && SameAllocs(envs, allocs, allocs'))
    && (action.TakeLock? ==> mail' == mail)
    && if MakesCall(action) then
         && action.c < |cpus| && cpus[action.c].env.Some? && cpus[action.c].env.value < NENV
         && CallLogged(action.cause.call, EndOf(next, envs', cpus[action.c].env.value), cpus[action.c].env.value,
                       envs, mail, allocs, sent, envs', mail', allocs', sent')
       else sent' == sent
  }

  /** The steps that may change the memory of environment `e`: its own stores, its own traps except the timer's, a call
      that reaches it, and the collecting of its remains. */
  predicate Meddles(envs: seq<Env>, cpus: seq<Cpu>, action: Action, e: nat)
    requires |envs| == NENV && e < NENV
  {
    match action
    case TakeLock(c, _) => c < |cpus| && cpus[c].env == Some(e) && envs[e].status == Dying
    case ServeTrap(c, cause) =>
      c < |cpus| && cpus[c].env.Some? && cpus[c].env.value < NENV && TrapReaches(envs, cpus[c].env.value, cause, e)
    case Write(c, _, _, _) => c < |cpus| && cpus[c].env == Some(e)
    case _ => false
  }

  /** Environment `e` is spared, and what is in the pages it owns. */
  ghost predicate Unharmed(g: Graph, m: seq<Frame>, g': Graph, m': seq<Frame>, e: nat) {
    && Spared(g, g', e) && |m| == |m'|
    && forall p: nat | Owns(g, e, p) :: p < |m| && m'[p] == m[p]
  }

  /** Every environment that the step does not meddle with is unharmed. */
  ghost predicate Isolates(envs: seq<Env>, cpus: seq<Cpu>, action: Action, g: Graph, m: seq<Frame>, g': Graph,
                           m': seq<Frame>)
  {
    |envs| == NENV
    && forall e: nat | e < NENV && Dir(e) in g && !Meddles(envs, cpus, action, e) :: Unharmed(g, m, g', m', e)
  }

  /** The kernel writes no page that is mapped. */
  lemma MappedIsUnharmed(g: Graph, b: Boot, m: seq<Frame>, g': Graph, m': seq<Frame>, e: nat)
    requires Spared(g, g', e) && SameMapped(g, b, m, m')
    ensures Unharmed(g, m, g', m', e)
  {
    hide Spared;
    forall p: nat | Owns(g, e, p) ensures p < |m| && m'[p] == m[p] {
      var v: nat :| MapsAt(g, e, v, p);
      assert SlotOf(e, v) in g && g[SlotOf(e, v)].addr == p;
    }
  }

  lemma SameIsolates(envs: seq<Env>, cpus: seq<Cpu>, action: Action, c: Counts, g: Graph, m: seq<Frame>, b: Boot)
    requires |envs| == NENV && Inv(c, g, m, b, NOTHING)
    ensures Isolates(envs, cpus, action, g, m, g, m)
  {
    hide Spared, Meddles, Unharmed, Inv, SameMapped;
    SameMappedRefl(c, g, m, b, NOTHING);
    forall e: nat | e < NENV && Dir(e) in g ensures Unharmed(g, m, g, m, e) {
      SpareSame(g, e);
      MappedIsUnharmed(g, b, m, g, m, e);
    }
  }

  lemma TrapIsolates(envs: seq<Env>, cpus: seq<Cpu>, c: nat, cause: Cause, g: Graph, b: Boot, m: seq<Frame>,
                     g': Graph, m': seq<Frame>)
    requires |envs| == NENV && c < |cpus| && cpus[c].env.Some? && cpus[c].env.value < NENV
    requires TrapSpares(envs, cpus[c].env.value, cause, g, g') && SameMapped(g, b, m, m')
    ensures Isolates(envs, cpus, ServeTrap(c, cause), g, m, g', m')
  {
    hide Spared, TrapReaches, Unharmed, SameMapped;
    forall e: nat | e < NENV && Dir(e) in g && !Meddles(envs, cpus, ServeTrap(c, cause), e)
      ensures Unharmed(g, m, g', m', e)
    {
      MappedIsUnharmed(g, b, m, g', m', e);
    }
  }

  lemma EnterIsolates(envs: seq<Env>, cpus: seq<Cpu>, c: nat, tf: Trapframe, g: Graph, b: Boot, m: seq<Frame>,
                      g': Graph, m': seq<Frame>)
    requires |envs| == NENV && c < |cpus| && SameMapped(g, b, m, m')
    requires g' == g || (cpus[c].env.Some? && cpus[c].env.value < NENV && envs[cpus[c].env.value].status == Dying
                         && g' == WithoutEnv(g, cpus[c].env.value))
    ensures Isolates(envs, cpus, TakeLock(c, tf), g, m, g', m')
  {
    hide Spared, Unharmed, SameMapped, WithoutEnv;
    forall e: nat | e < NENV && Dir(e) in g && !Meddles(envs, cpus, TakeLock(c, tf), e)
      ensures Unharmed(g, m, g', m', e)
    {
      SpareSame(g, e);
      if g' != g {
        DestroySpares(g, cpus[c].env.value, e);
      }
      MappedIsUnharmed(g, b, m, g', m', e);
    }
  }

  /** A program's store changes no page that another environment owns. */
  lemma StoreIsolates(envs: seq<Env>, cpus: seq<Cpu>, action: Action, g: Graph, b: Boot, m: seq<Frame>,
                      m': seq<Frame>, done: bool)
    requires |envs| == NENV && action.Write? && action.c < |cpus| && cpus[action.c].env.Some? && action.i < NPTENTRIES
    requires Stored(g, m, m', cpus[action.c].env.value, PGNUM(action.va), action.i, action.w, done)
    requires SameMapped(g, b, m, m)
    ensures Isolates(envs, cpus, action, g, m, g, m')
  {
    hide Spared, Flat;
    var writer := cpus[action.c].env.value;
    forall e: nat | e < NENV && Dir(e) in g && !Meddles(envs, cpus, action, e) ensures Unharmed(g, m, g, m', e) {
      SpareSame(g, e);
      MappedIsUnharmed(g, b, m, g, m, e);
      if done {
        assert WritableAt(g, Flat(g, writer)[PGNUM(action.va)].addr, writer, PGNUM(action.va));
      }
    }
  }

  /** The action is a system call of environment `e`. */
  predicate CallOf(cpus: seq<Cpu>, action: Action, e: nat) {
    MakesCall(action) && action.c < |cpus| && cpus[action.c].env == Some(e)
  }

  /** The status that a trap of a RUNNING environment may leave it with. */
  predicate OwnMove(cause: Cause, status: Status) {
    match cause
    case Timer => status == Runnable
    case PageFault => status == Free
    case Unexpected => status == Free
    case SystemCall(Yield) => status == Runnable
    case SystemCall(RecvCall(_)) => status == NotRunnable
    case SystemCall(CputsCall(_, _)) => status == Free
    case SystemCall(DestroyCall(_)) => status == Free
    case _ => false
  }

  /** The status that a step may give to environment `e`: a zombie is collected by its own CPU; a trap does to its
      environment and to others what it is for, and it and the way out of the kernel may have a RUNNABLE one run. */
  predicate MayMove(envs: seq<Env>, cpus: seq<Cpu>, action: Action, e: nat, status: Status)
    requires |envs| == NENV && e < NENV
  {
    match action
    case TakeLock(c, _) => c < |cpus| && cpus[c].env == Some(e) && envs[e].status == Dying && status == Free
    case ServeTrap(c, cause) =>
      && c < |cpus| && cpus[c].env.Some? && cpus[c].env.value < NENV
      && (|| (envs[e].status == Runnable && status == Running)
          || (cpus[c].env == Some(e) && OwnMove(cause, status))
          || (cause.SystemCall? && MayBecome(envs, cpus[c].env.value, cause.call, e, status)))
    case LeaveKernel(_) => envs[e].status == Runnable && status == Running
    case _ => false
  }

  /** The step is a sys_ipc_try_send by which `e` has received. */
  ghost predicate Wakes(envs: seq<Env>, cpus: seq<Cpu>, action: Action, e: nat, g: Graph, envs': seq<Env>, g': Graph)
    requires e < |envs| == |envs'|
  {
    && MakesCall(action) && action.cause.call.TrySendCall?
    && action.c < |cpus| && cpus[action.c].env.Some? && cpus[action.c].env.value < |envs|
    && Received(envs, cpus[action.c].env.value, action.cause.call, e, g, envs', g')
  }

  /** A live environment stays the same one. Its registers change when its own CPU enters the kernel, in eax by its own
      call, and when it is woken; it waits for a message, and for a page at an address, from its own sys_ipc_recv with
      that address until it is woken; and its last message is the one it was woken with. */
  ghost predicate StillItself(envs: seq<Env>, cpus: seq<Cpu>, action: Action, e: nat, g: Graph, envs': seq<Env>,
                              g': Graph)
    requires e < |envs| == |envs'|
  {
    && SameSelf(envs[e], envs'[e])
    && (|| envs'[e].tf == envs[e].tf
        || (action.TakeLock? && action.c < |cpus| && cpus[action.c].env == Some(e) && envs'[e].tf == action.tf)
        || (CallOf(cpus, action, e) && envs'[e].tf == envs[e].tf.(eax := envs'[e].tf.eax))
        || (envs[e].recving && !envs'[e].recving))
    && (if !envs'[e].recving then true
        else if envs[e].recving then envs'[e].dstva == envs[e].dstva
        else CallOf(cpus, action, e) && action.cause.call == RecvCall(envs'[e].dstva))
    && if envs[e].recving && !envs'[e].recving then Wakes(envs, cpus, action, e, g, envs', g')
       else envs[e].recving || SameMessage(envs[e], envs'[e])
  }

  /** What a step does to each environment. */
  ghost predicate Moved(envs: seq<Env>, cpus: seq<Cpu>, action: Action, g: Graph, envs': seq<Env>, g': Graph) {
    && |envs| == |envs'| == NENV
    && forall e: nat | e < NENV ::
         && (envs'[e].status == envs[e].status || MayMove(envs, cpus, action, e, envs'[e].status))
         && (envs[e].status != Free && envs'[e].status != Free ==> StillItself(envs, cpus, action, e, g, envs', g'))
  }

  /** What a step does to the CPUs and their turns: a CPU that enters the kernel keeps its environment unless that is
      a zombie, which it loses; a trap that is served is not seen there; one that leaves the kernel
      goes on as its cause says, and so does the end of trap(). The slots free before the step start at `link`. */
  ghost predicate GoesOn(action: Action, next: Stage, link: Option<nat>, envs: seq<Env>, cpus: seq<Cpu>,
                         log: seq<seq<Turn>>, envs': seq<Env>, cpus': seq<Cpu>, log': seq<seq<Turn>>)
  {
    match action
    case TakeLock(c, _) =>
      && c < |cpus| == |cpus'| == |log| == |log'|
      && cpus' == cpus[c := cpus'[c]] && log' == log[c := log'[c]]
      && cpus'[c].env == (if next == Entered then cpus[c].env else None)
      && log'[c] == log[c] + if next == Served && cpus[c].env.Some? then [Lost] else []
    case ServeTrap(c, cause) =>
      && (next == Served ==> cpus' == cpus && log' == log)
      && (next == Outside ==>
            && c < |cpus| && cpus[c].env.Some?
            && LeftFor(cause, cpus[c].env.value, link, envs, cpus, log, c, envs', cpus', log'))
    case LeaveKernel(c) => next == Outside ==> LeftTrap(envs, cpus, log, c, envs', cpus', log')
    case _ => true
  }

  /** A system call that returns has done what it promises, and its result is in the caller's eax. */
  ghost predicate CallDid(action: Action, next: Stage, cpus: seq<Cpu>, envs: seq<Env>, g: Graph, free: nat,
                          envs': seq<Env>, g': Graph, m': seq<Frame>)
  {
    MakesCall(action) && next == Served ==>
      && action.c < |cpus| && cpus[action.c].env.Some?
      && var cur := cpus[action.c].env.value;
        cur < |envs| == |envs'| && Did(action.cause.call, envs'[cur].tf.eax, cur, envs, g, free, envs', g', m')
  }

  /** What the smaller steps leave alone. */
  ghost predicate LeavesAlone(action: Action, envs: seq<Env>, cpus: seq<Cpu>, log: seq<seq<Turn>>, g: Graph,
                              m: seq<Frame>, envs': seq<Env>, cpus': seq<Cpu>, log': seq<seq<Turn>>, g': Graph,
                              m': seq<Frame>)
  {
    && (!action.TakeLock? && !action.ServeTrap? ==> g' == g && (action.Write? || m' == m))
    && (action.Interrupt? || action.Write? || action.Cache? || action.Evict? ==> envs' == envs && log' == log)
    && (action.Write? || action.Cache? || action.Evict? ==> cpus' == cpus)
  }

  /** Nobody who can run is stopped but by its own sys_ipc_recv or a sys_env_set_status on it. */
  lemma OnlyStoppedSo(envs: seq<Env>, cpus: seq<Cpu>, action: Action, g: Graph, envs': seq<Env>, g': Graph, e: nat)
    requires Moved(envs, cpus, action, g, envs', g') && e < NENV
    requires envs[e].status == Running || envs[e].status == Runnable
    ensures |envs'| == NENV
    ensures envs'[e].status == NotRunnable ==>
      && MakesCall(action) && action.c < |cpus| && cpus[action.c].env.Some?
      && var cur, call := cpus[action.c].env.value, action.cause.call;
        || (cur == e && call.RecvCall?)
        || (call.SetStatusCall? && call.status == NotRunnable
           && (envs[e].id == call.envid || (call.envid == 0 && cur == e)))
  {
  }

  lemma NothingNew(g: Graph)
    ensures forall m: seq<Frame> :: NewPagesZero(g, g, m)
  {
    hide NewPagesZero, WithoutEnv;
    forall m: seq<Frame> ensures NewPagesZero(g, g, m) {
      DestroyBringsNone(g, 0, m);
    }
  }

  lemma SameMoved(envs: seq<Env>, cpus: seq<Cpu>, action: Action, g: Graph, g': Graph)
    requires |envs| == NENV
    ensures Moved(envs, cpus, action, g, envs, g')
  {
  }

  lemma EnterMoved(envs: seq<Env>, cpus: seq<Cpu>, c: nat, tf: Trapframe, g: Graph, envs': seq<Env>, g': Graph)
    requires |envs| == NENV && c < |cpus| && (cpus[c].env.Some? ==> cpus[c].env.value < NENV)
    requires
      var cur := cpus[c].env;
      if cur == None then envs' == envs
      else if envs[cur.value].status == Dying then
        OthersSame(envs, envs', cur.value) && envs'[cur.value].status == Free
      else envs' == envs[cur.value := envs[cur.value].(tf := tf)]
    ensures Moved(envs, cpus, TakeLock(c, tf), g, envs', g')
  {
  }

  /** The scheduler has a RUNNABLE environment run, or the CPU's own if none is. */
  lemma RescheduledMoves(envs: seq<Env>, own: Option<nat>, turns: seq<Turn>, cpus: seq<Cpu>, log: seq<seq<Turn>>,
                         c: nat, envs': seq<Env>, cpus': seq<Cpu>, log': seq<seq<Turn>>)
    requires Rescheduled(envs, own, turns, cpus, log, c, envs', cpus', log')
    ensures |envs| == |envs'| == NENV
    ensures forall e: nat | e < NENV ::
      && envs'[e] == envs[e].(status := envs'[e].status, runs := envs'[e].runs)
      && (|| envs'[e].status == envs[e].status
          || (envs[e].status == Runnable && envs'[e].status == Running)
          || (own == Some(e) && envs[e].status == Running && envs'[e].status == Runnable))
  {
  }

  lemma DestroyedMoved(envs: seq<Env>, cpus: seq<Cpu>, c: nat, cause: Cause, v: Env, turns: seq<Turn>,
                       log: seq<seq<Turn>>, g: Graph, envs': seq<Env>, cpus': seq<Cpu>, log': seq<seq<Turn>>, g': Graph)
    requires |envs| == NENV && c < |cpus| && cpus[c].env.Some? && cpus[c].env.value < NENV
    requires v.status == Free && OwnMove(cause, Free)
    requires Rescheduled(envs[cpus[c].env.value := v], None, turns, cpus, log, c, envs', cpus', log')
    ensures Moved(envs, cpus, ServeTrap(c, cause), g, envs', g')
  {
    hide Rescheduled, Resolve;
    RescheduledMoves(envs[cpus[c].env.value := v], None, turns, cpus, log, c, envs', cpus', log');
  }

  lemma LeftMoved(envs: seq<Env>, cpus: seq<Cpu>, c: nat, cause: Cause, link: Option<nat>, log: seq<seq<Turn>>,
                  g: Graph, envs': seq<Env>, cpus': seq<Cpu>, log': seq<seq<Turn>>, g': Graph)
    requires |envs| == NENV && c < |cpus| && cpus[c].env.Some? && cpus[c].env.value < NENV
    requires envs[cpus[c].env.value].status == Running && !envs[cpus[c].env.value].recving
    requires LeftFor(cause, cpus[c].env.value, link, envs, cpus, log, c, envs', cpus', log')
    ensures Moved(envs, cpus, ServeTrap(c, cause), g, envs', g')
  {
    hide Rescheduled, Resolve;
    var cur := cpus[c].env.value;
    if cause == Timer || cause == SystemCall(Yield) {
      RescheduledMoves(envs, Some(cur), log[c], cpus, log, c, envs', cpus', log');
    } else if cause.SystemCall? && cause.call.RecvCall? {
      RescheduledMoves(envs[cur := envs[cur].(dstva := cause.call.dstva, recving := true, status := NotRunnable)],
                       Some(cur), log[c], cpus, log, c, envs', cpus', log');
    } else {
      hide Moved;
      DestroyedMoved(envs, cpus, c, cause, envs[cur].(pgdir := None, status := Free, link := link), log[c] + [Lost],
                     log, g, envs', cpus', log', g');
    }
  }

  lemma ReturnsMoved(envs: seq<Env>, cpus: seq<Cpu>, c: nat, call: Call, g: Graph, envs': seq<Env>, g': Graph)
    requires c < |cpus| && cpus[c].env.Some? && CallMoves(envs, cpus[c].env.value, call, envs')
    requires call.TrySendCall? ==> WokenReceived(envs, cpus[c].env.value, call, g, envs', g')
    ensures Moved(envs, cpus, ServeTrap(c, SystemCall(call)), g, envs', g')
  {
    hide MayBecome, Received;
  }

  lemma LeaveMoved(envs: seq<Env>, cpus: seq<Cpu>, c: nat, log: seq<seq<Turn>>, g: Graph, envs': seq<Env>,
                   cpus': seq<Cpu>, log': seq<seq<Turn>>)
    requires |envs| == NENV && c < |cpus| && (cpus[c].env.Some? ==> cpus[c].env.value < NENV)
    requires LeftTrap(envs, cpus, log, c, envs', cpus', log')
    ensures Moved(envs, cpus, LeaveKernel(c), g, envs', g)
  {
    hide Rescheduled;
    if !(cpus[c].env.Some? && envs[cpus[c].env.value].status == Running) {
      RescheduledMoves(envs, cpus[c].env, log[c], cpus, log, c, envs', cpus', log');
    }
  }

  /** Other CPUs' traps do not disturb the one inside the kernel. */
  method InterruptIt(k: Kernel, c: nat, stage: Stage)
    requires StageOk(k, stage) && stage != Ended && Enabled(k, Interrupt(c), stage)
    modifies k`cpus
    ensures StageOk(k, stage)
    ensures k.cpus == old(k.cpus)[c := old(k.cpus)[c].(place := Waiting)]
  {
    hide Inv, EnvInv, Coherent, RunOk, MailOk;
    InsideElsewhere(k, c);
    Trap(k, c);
  }

  method Take(k: Kernel, c: nat, tf: Trapframe, stage: Stage) returns (next: Stage)
    requires StageOk(k, stage) && Enabled(k, TakeLock(c, tf), stage)
    modifies k`pages, k`pageFreeList, k`mem, k`free, k`tlbs, k`g, k`envs, k`envFreeList, k`envFree, k`cpus, k`lock,
             k`log
    ensures StageOk(k, next) && (next == Entered || next == Served) && next != stage && k.lock == Some(c)
    ensures NoNewWriter(old(k.g), k.g) && Forward(old(k.log), k.log)
    ensures Isolates(old(k.envs), old(k.cpus), TakeLock(c, tf), old(k.g), old(k.mem), k.g, k.mem)
    ensures |k.mail| == |old(k.envs)| == |k.allocs| == NENV
      && Grows(old(k.envs), k.mail, k.envs, k.mail, old(k.cpus)[c].env)
    ensures Moved(old(k.envs), old(k.cpus), TakeLock(c, tf), old(k.g), k.envs, k.g)
    ensures NewPagesZero(old(k.g), k.g, k.mem) && WalksKept(k.boot.kern, old(k.mem), k.mem)
    ensures GoesOn(TakeLock(c, tf), next, None, old(k.envs), old(k.cpus), old(k.log), k.envs, k.cpus, k.log)
  {
    hide Inv, EnvInv, Coherent, RunOk, MailOk, NoNewWriter, Grows, WithoutEnv, LogOk, Forward, SameMapped, Isolates,
         Moved, NewPagesZero, WalksKept;
    MailSizes(k.envs, k.mail, k.allocs, k.sent);
    var serving := Enter(k, c, tf);
    EnterMoved(old(k.envs), old(k.cpus), c, tf, old(k.g), k.envs, k.g);
    DestroyBringsNone(old(k.g), if old(k.cpus)[c].env.Some? then old(k.cpus)[c].env.value else 0, k.mem);
    EnterIsolates(old(k.envs), old(k.cpus), c, tf, old(k.g), k.boot, old(k.mem), k.g, k.mem);
    KernelStays(old(k.C()), old(k.g), old(k.mem), k.boot, NOTHING, k.mem);
    return if serving then Entered else Served;
  }

  method ServeIt(k: Kernel, c: nat, cause: Cause, stage: Stage) returns (next: Stage)
    requires StageOk(k, stage) && Enabled(k, ServeTrap(c, cause), stage)
    modifies k
    ensures StageOk(k, next) && next != Entered && next != stage
    ensures next == Ended <==> Ends(old(Now(k)), ServeTrap(c, cause))
    ensures next != Ended ==> NoNewWriter(old(k.g), k.g)
    ensures next != Ended ==>
      Isolates(old(k.envs), old(k.cpus), ServeTrap(c, cause), old(k.g), old(k.mem), k.g, k.mem)
    ensures Forward(old(k.log), k.log)
    ensures StepLogged(ServeTrap(c, cause), next, old(k.cpus), old(k.envs), old(k.mail), old(k.allocs), old(k.sent),
                       k.envs, k.mail, k.allocs, k.sent)
    ensures next != Ended ==> Moved(old(k.envs), old(k.cpus), ServeTrap(c, cause), old(k.g), k.envs, k.g)
    ensures next != Ended ==> NewPagesZero(old(k.g), k.g, k.mem) && WalksKept(k.boot.kern, old(k.mem), k.mem)
    ensures CallDid(ServeTrap(c, cause), next, old(k.cpus), old(k.envs), old(k.g), |old(k.free)|, k.envs, k.g, k.mem)
    ensures GoesOn(ServeTrap(c, cause), next, old(k.envFreeList), old(k.envs), old(k.cpus), old(k.log), k.envs, k.cpus,
                   k.log)
  {
    hide Inv, EnvInv, Coherent, RunOk, MailOk, NoNewWriter, Grows, WithoutEnv, HasRoom, Admitted, WordsOk, LogOk,
         Forward, CallLogged, SameAllocs, TrapEnds, TrapSpares, SameMapped, Isolates, Moved, LeftFor, CallMoves,
         WokenReceived, NewPagesZero, Did, Answered, NamesOk, WalksKept;
    CurrentIsLive(k, c);
    BeforeTheCall(k, c);
    RunningIsNotReceiving(k, k.cpus[c].env.value);
    SameMoved(k.envs, k.cpus, ServeTrap(c, cause), k.g, k.g);
    MailSizes(k.envs, k.mail, k.allocs, k.sent);
    AllocsKept(k.envs, k.allocs);
    var r := Serve(k, c, cause);
    if !r.Over? {
      TrapIsolates(old(k.envs), old(k.cpus), c, cause, old(k.g), k.boot, old(k.mem), k.g, k.mem);
      KernelStays(old(k.C()), old(k.g), old(k.mem), k.boot, NOTHING, k.mem);
    }
    if cause.SystemCall? {
      CallKeepsAllocs(cause.call, r, old(k.cpus)[c].env.value, old(k.envs), old(k.mail), old(k.allocs), old(k.sent),
                      k.envs, k.mail, k.allocs, k.sent);
    }
    if r.Left? {
      LeftMoved(old(k.envs), old(k.cpus), c, cause, old(k.envFreeList), old(k.log), old(k.g), k.envs, k.cpus, k.log,
                k.g);
    } else if r.Returns? && cause.SystemCall? {
      ReturnsMoved(old(k.envs), old(k.cpus), c, cause.call, old(k.g), k.envs, k.g);
      AnsweredDid(cause.call, r.code, old(k.cpus)[c].env.value, old(k.g), |old(k.free)|, old(k.envs), old(k.mail), k.g,
                  k.envs, k.mail, k.mem);
    }
    return After(r);
  }

  lemma CallKeepsAllocs(call: Call, r: Ending, cur: nat, envs: seq<Env>, mail: seq<History>, allocs: seq<nat>,
                        sent: seq<Delivery>, envs': seq<Env>, mail': seq<History>, allocs': seq<nat>,
                        sent': seq<Delivery>)
    requires cur < NENV == |envs| == |mail| == |allocs|
    requires CallLogged(call, r, cur, envs, mail, allocs, sent, envs', mail', allocs', sent')
    ensures !r.Over? ==> SameAllocs(envs, allocs, allocs')
  {
  }

  method LeaveIt(k: Kernel, c: nat, stage: Stage) returns (next: Stage)
    requires StageOk(k, stage) && Enabled(k, LeaveKernel(c), stage)
    modifies k`envs, k`cpus, k`lock, k`mail, k`tlbs, k`log
    ensures StageOk(k, next) && (next == Outside || next == Ended) && next != stage
    ensures next == Ended <==> Ends(old(Now(k)), LeaveKernel(c))
    ensures k.g == old(k.g) && k.mem == old(k.mem)
    ensures Grows(old(k.envs), old(k.mail), k.envs, k.mail, None) && Forward(old(k.log), k.log)
    ensures next != Ended ==> Moved(old(k.envs), old(k.cpus), LeaveKernel(c), old(k.g), k.envs, k.g)
    ensures GoesOn(LeaveKernel(c), next, old(k.envFreeList), old(k.envs), old(k.cpus), old(k.log), k.envs, k.cpus,
                   k.log)
  {
    hide Inv, EnvInv, Coherent, RunOk, MailOk, Grows, LogOk, Forward, Moved, LeftTrap;
    CurrentIsLive(k, c);
    var r := Leave(k, c);
    if r.Left? {
      LeaveMoved(old(k.envs), old(k.cpus), c, old(k.log), k.g, k.envs, k.cpus, k.log);
    }
    return After(r);
  }

  lemma StoreKeepsKernel(c: Counts, g: Graph, m: seq<Frame>, b: Boot, e: nat, v: nat, i: nat, w: Word, m': seq<Frame>,
                         done: bool)
    requires Inv(c, g, m, b, NOTHING) && i < NPTENTRIES && Stored(g, m, m', e, v, i, w, done)
    ensures WalksKept(b.kern, m, m')
  {
    hide Inv, Walk, Flat, SlotOf;
    Sizes(c, g, m, b, NOTHING);
    if done {
      FlatAt(g, e, v);
      SlotOfIsPte(e, v);
      StoreSparesKernel(c, g, m, b, NOTHING, SlotOf(e, v), m[g[SlotOf(e, v)].addr][i := w]);
      KernelStays(c, g, m, b, NOTHING, m');
    } else {
      WalksSame(b.kern, m);
    }
  }

  lemma SlotOfIsPte(e: nat, v: nat)
    ensures SlotOf(e, v).Pte?
  {
  }

  /** What a store of the program on CPU `c` does. */
  ghost predicate StoredBy(cpus: seq<Cpu>, tlbs: map<nat, Tlb>, g: Graph, m: seq<Frame>, m': seq<Frame>, c: nat,
                           va: nat,
                           i: nat, w: Word) {
    && c < |cpus| && cpus[c].env.Some? && i < NPTENTRIES && va < UTOP
    && exists done ::
         Stored(g, m, m', cpus[c].env.value, PGNUM(va), i, w, done)
           && SameThroughTlb(tlbs, |cpus|, c, va, m, m', i, w, done)
  }

  method WriteIt(k: Kernel, c: nat, va: nat, i: nat, w: Word, stage: Stage)
    requires StageOk(k, stage) && stage != Ended && Enabled(k, Write(c, va, i, w), stage)
    modifies k`mem
    ensures StageOk(k, stage)
    ensures StoredBy(k.cpus, k.tlbs, k.g, old(k.mem), k.mem, c, va, i, w)
    ensures Isolates(k.envs, k.cpus, Write(c, va, i, w), k.g, old(k.mem), k.g, k.mem)
    ensures WalksKept(k.boot.kern, old(k.mem), k.mem)
  {
    hide Inv, EnvInv, Coherent, RunOk, MailOk, Flat, SameMapped, Isolates, WalksKept, Stored;
    SameMappedRefl(k.C(), k.g, k.mem, k.boot, NOTHING);
    StageSizes(k, stage);
    var done := UserStore(k, c, va, i, w);
    StoreIsolates(k.envs, k.cpus, Write(c, va, i, w), k.g, k.boot, old(k.mem), k.mem, done);
    StoreKeepsKernel(old(k.C()), k.g, old(k.mem), k.boot, k.cpus[c].env.value, PGNUM(va), i, w, k.mem, done);
  }

  method CacheIt(k: Kernel, c: nat, v: Page, stage: Stage)
    requires StageOk(k, stage) && stage != Ended
    modifies k`tlbs
    ensures StageOk(k, stage) && k.tlbs == Cached(old(k.tlbs), c, v, k.mem, k.cpus)
  {
    hide Inv, EnvInv, Coherent, RunOk, MailOk, LogOk, Cached;
    k.Cache(c, v);
  }

  method EvictIt(k: Kernel, c: nat, v: Page, stage: Stage)
    requires StageOk(k, stage) && stage != Ended
    modifies k`tlbs
    ensures StageOk(k, stage) && k.tlbs == Flushed(old(k.tlbs), c, v)
  {
    hide Inv, EnvInv, Coherent, RunOk, MailOk, LogOk, Flushed;
    k.Evict(c, v);
  }

  /** One step. It keeps the invariant, harms no environment it does not meddle with, hands out no new write
      permission to a page in use, takes nothing back from the history of messages or of the scheduler, delivers
      messages only by a successful sys_ipc_try_send, and ends the run exactly if it is one of the steps that do. */
  method Step(k: Kernel, action: Action, stage: Stage) returns (next: Stage)
    requires StageOk(k, stage) && stage != Ended && Enabled(k, action, stage)
    modifies k
    ensures StageOk(k, next)
    ensures next == Ended <==> Ends(old(Now(k)), action)
    ensures next != Ended ==> NoNewWriter(old(k.g), k.g)
    ensures next != Ended ==> Isolates(old(k.envs), old(k.cpus), action, old(k.g), old(k.mem), k.g, k.mem)
    ensures StepLogged(action, next, old(k.cpus), old(k.envs), old(k.mail), old(k.allocs), old(k.sent),
                       k.envs, k.mail, k.allocs, k.sent)
    ensures next != Ended ==> Moved(old(k.envs), old(k.cpus), action, old(k.g), k.envs, k.g)
    ensures next != Ended ==> NewPagesZero(old(k.g), k.g, k.mem) && WalksKept(k.boot.kern, old(k.mem), k.mem)
    ensures CallDid(action, next, old(k.cpus), old(k.envs), old(k.g), |old(k.free)|, k.envs, k.g, k.mem)
    ensures GoesOn(action, next, old(k.envFreeList), old(k.envs), old(k.cpus), old(k.log), k.envs, k.cpus, k.log)
    ensures Forward(old(k.log), k.log)
    ensures LeavesAlone(action, old(k.envs), old(k.cpus), old(k.log), old(k.g), old(k.mem), k.envs, k.cpus, k.log, k.g,
                        k.mem)
    ensures action.TakeLock? || action.ServeTrap? || action.LeaveKernel? ==> next != stage
    ensures action.TakeLock? ==> k.lock == Some(action.c)
    ensures action.LeaveKernel? ==> next == Outside || next == Ended
    ensures action.Interrupt? ==> k.cpus == old(k.cpus)[action.c := old(k.cpus)[action.c].(place := Waiting)]
    ensures action.Write? ==> StoredBy(k.cpus, k.tlbs, k.g, old(k.mem), k.mem, action.c, action.va, action.i, action.w)
    ensures action.Cache? ==> k.tlbs == Cached(old(k.tlbs), action.c, action.v, k.mem, k.cpus)
    ensures action.Evict? ==> k.tlbs == Flushed(old(k.tlbs), action.c, action.v)
  {
    hide StageOk, Enabled, NoNewWriter, Grows, StoredBy, Forward, SameAllocs, CallLogged, TrapEnds, SomethingToRun,
         Cached, Flushed, Isolates, Moved, LeftFor, LeftTrap, NewPagesZero, Did, WithoutEnv, WalksKept;
    SameHandsOn(k.g);
    SameForward(k.log);
    StageSizes(k, stage);
    AllocsKept(k.envs, k.allocs);
    SameGrows(k.envs, k.envs, k.mail, None);
    StageIsolates(k, stage, action);
    StageWalks(k, stage);
    SameMoved(k.envs, k.cpus, action, k.g, k.g);
    NothingNew(k.g);
    next := stage;
    match action
    case Interrupt(c) => InterruptIt(k, c, stage);
    case TakeLock(c, tf) =>
      CpuExists(k, action, stage);
      next := Take(k, c, tf, stage);
    case ServeTrap(c, cause) => next := ServeIt(k, c, cause, stage);
    case LeaveKernel(c) => next := LeaveIt(k, c, stage);
    case Write(c, va, i, w) => WriteIt(k, c, va, i, w, stage);
    case Cache(c, v) => CacheIt(k, c, v, stage);
    case Evict(c, v) => EvictIt(k, c, v, stage);
  }

  lemma StageIsolates(k: Kernel, stage: Stage, action: Action)
    requires StageOk(k, stage) && stage != Ended
    ensures Isolates(k.envs, k.cpus, action, k.g, k.mem, k.g, k.mem)
  {
    hide Inv, Isolates;
    StageSizes(k, stage);
    SameIsolates(k.envs, k.cpus, action, k.C(), k.g, k.mem, k.boot);
  }

  lemma StageWalks(k: Kernel, stage: Stage)
    requires StageOk(k, stage) && stage != Ended
    ensures WalksKept(k.boot.kern, k.mem, k.mem)
  {
    hide Inv, Walk;
    Sizes(k.C(), k.g, k.mem, k.boot, NOTHING);
    WalksSame(k.boot.kern, k.mem);
  }

  lemma StageSees(k: Kernel, stage: Stage, m0: seq<Frame>)
    requires StageOk(k, stage) && stage != Ended && WalksKept(k.boot.kern, m0, k.mem)
    ensures UpperHalf(k.g, k.boot.kern, m0, k.mem)
  {
    hide Inv, WalksKept, UpperHalf;
    EveryoneSees(k.C(), k.g, k.mem, k.boot, NOTHING, m0);
  }

  lemma CpuExists(k: Kernel, action: Action, stage: Stage)
    requires Enabled(k, action, stage) && action.TakeLock?
    ensures action.c < |k.cpus|
  {
  }

  /** A step that was taken, and the state before it. */
  datatype Taken = Taken(before: Moment, action: Action)

  /** The state `m` can be the one after the step: nobody it does not meddle with is harmed, no page in use is newly
      writable, a page that comes into use holds zeros, and every environment has moved as the step says. */
  ghost predicate Follows(t: Taken, m: Moment) {
    && Isolates(t.before.envs, t.before.cpus, t.action, t.before.g, t.before.mem, m.g, m.mem)
    && NoNewWriter(t.before.g, m.g)
    && NewPagesZero(t.before.g, m.g, m.mem)
    && Moved(t.before.envs, t.before.cpus, t.action, t.before.g, m.envs, m.g)
  }

  /** The steps of a run from the state `first` to the state `now`: only the last one ends it, if any does. */
  ghost predicate IsRun(trace: seq<Taken>, first: Moment, now: Moment, over: bool) {
    && (if trace == [] then now == first && !over else trace[0].before == first)
    && (forall i | 0 <= i < |trace| - 1 :: Follows(trace[i], trace[i + 1].before))
    && (trace != [] && !over ==> Follows(trace[|trace| - 1], now))
    && forall i | 0 <= i < |trace| :: Ends(trace[i].before, trace[i].action) <==> over && i == |trace| - 1
  }

  /** The state after step `i` of a run that has come to the state `now`. */
  ghost function AfterStep(trace: seq<Taken>, now: Moment, i: nat): Moment
    requires i < |trace|
  {
    if i + 1 < |trace| then trace[i + 1].before else now
  }

  lemma OneMoreTaken(trace: seq<Taken>, first: Moment, before: Moment, action: Action, now: Moment, over: bool)
    requires IsRun(trace, first, before, false)
    requires Ends(before, action) <==> over
    requires !over ==> Follows(Taken(before, action), now)
    ensures IsRun(trace + [Taken(before, action)], first, now, over)
  {
    hide Ends, Follows;
  }

  lemma NothingTaken(now: Moment)
    ensures IsRun([], now, now, false)
  {
  }

  /** Page `p` is in use, it is not the screen, and nobody can write to it. */
  ghost predicate ReadOnly(g: Graph, p: nat) {
    p != VGA_PAGE && Referenced(g, p) && !Writable(g, p)
  }

  /** Page `p` is in use before every step. */
  ghost predicate InUse(trace: seq<Taken>, p: nat) {
    forall t | t in trace :: Referenced(t.before.g, p)
  }

  /** No step meddles with environment `e`. */
  ghost predicate LeftAlone(trace: seq<Taken>, e: nat)
    requires e < NENV
  {
    forall t | t in trace :: |t.before.envs| == NENV && !Meddles(t.before.envs, t.before.cpus, t.action, e)
  }

  lemma ThenUnharmed(g: Graph, m: seq<Frame>, g1: Graph, m1: seq<Frame>, g2: Graph, m2: seq<Frame>, e: nat)
    requires Unharmed(g, m, g1, m1, e) && Unharmed(g1, m1, g2, m2, e)
    ensures Unharmed(g, m, g2, m2, e)
  {
    hide Flat, Owns;
  }

  /** What a run keeps as long as nobody meddles with `e` and page `p` is in use. */
  ghost predicate RunPromise(trace: seq<Taken>, g0: Graph, m0: seq<Frame>, g: Graph, m: seq<Frame>, p: nat, e: nat)
    requires e < NENV
  {
    && (ReadOnly(g0, p) && InUse(trace, p) && Referenced(g, p) ==> ReadOnly(g, p))
    && (Dir(e) in g0 && LeftAlone(trace, e) ==> Dir(e) in g && Unharmed(g0, m0, g, m, e))
  }

  lemma NothingYet(c: Counts, g: Graph, m: seq<Frame>, b: Boot, p: nat, e: nat)
    requires e < NENV && Inv(c, g, m, b, NOTHING)
    ensures RunPromise([], g, m, g, m, p, e)
  {
    hide Inv, Spared, ReadOnly, SameMapped;
    SpareSame(g, e);
    SameMappedRefl(c, g, m, b, NOTHING);
    MappedIsUnharmed(g, b, m, g, m, e);
  }

  lemma OneStepKeeps(trace: seq<Taken>, g0: Graph, m0: seq<Frame>, before: Moment, action: Action, g: Graph,
                     m: seq<Frame>, p: nat, e: nat)
    requires e < NENV && RunPromise(trace, g0, m0, before.g, before.mem, p, e)
    requires NoNewWriter(before.g, g) && Isolates(before.envs, before.cpus, action, before.g, before.mem, g, m)
    ensures RunPromise(trace + [Taken(before, action)], g0, m0, g, m, p, e)
  {
    hide Flat, Owns, Writable, Referenced, Meddles;
    var trace' := trace + [Taken(before, action)];
    assert trace'[|trace|] == Taken(before, action);
    assert forall t | t in trace :: t in trace';
    if Dir(e) in g0 && LeftAlone(trace', e) {
      assert LeftAlone(trace, e);
      ThenUnharmed(g0, m0, before.g, before.mem, g, m, e);
    }
    if InUse(trace', p) {
      assert InUse(trace, p) && Referenced(before.g, p);
    }
  }

  /** Every run keeps the whole invariant: the state after any script, so after every step of every run, is good.
      Steps of the script that are not possible when their turn comes are skipped. The run goes on to the end of the
      script unless a step ends it that Ends names. Every environment's directory translates the pages above UTOP as
      kern_pgdir did at first. An environment `e` that no step of the run meddles with keeps its
      map, and the pages that only it can write their contents, whatever the others do. A page `p` other than the screen
      that nobody can write to at first cannot be written to at the end either, if it has been in use all the time. */
  method RunSystem(k: Kernel, script: seq<Action>, ghost p: nat, ghost e: nat)
    returns (stage: Stage, ghost trace: seq<Taken>)
    requires SystemInv(k) && k.lock == None && e < NENV
    modifies k
    ensures StageOk(k, stage)
    ensures IsRun(trace, old(Now(k)), Now(k), stage == Ended) && forall t | t in trace :: t.action in script
    ensures script != [] && old(Enabled(k, script[0], Outside)) ==> trace != [] && trace[0].action == script[0]
    ensures stage != Ended ==> UpperHalf(k.g, k.boot.kern, old(k.mem), k.mem)
    ensures stage != Ended && Dir(e) in old(k.g) && LeftAlone(trace, e) ==>
      Dir(e) in k.g && Unharmed(old(k.g), old(k.mem), k.g, k.mem, e)
    ensures stage != Ended && ReadOnly(old(k.g), p) && InUse(trace, p) && Referenced(k.g, p) ==> ReadOnly(k.g, p)
  {
    hide StageOk, Enabled, ReadOnly, InUse, LeftAlone, Unharmed, Ends, Isolates, NoNewWriter, RunPromise, Moved,
         NewPagesZero, IsRun, WalksKept, UpperHalf;
    NothingTaken(Now(k));
    stage, trace := Outside, [];
    assert StageOk(k, stage) by { StartsOutside(k); }
    ghost var g0, m0 := k.g, k.mem;
    NothingYet(k.C(), k.g, k.mem, k.boot, p, e);
    StageWalks(k, stage);
    ghost var first := script != [] && Enabled(k, script[0], Outside);
    for n := 0 to |script|
      invariant StageOk(k, stage)
      invariant stage != Ended ==> WalksKept(k.boot.kern, m0, k.mem)
      invariant n == 0 ==> unchanged(k) && stage == Outside && trace == []
      invariant n > 0 && first ==> trace != [] && trace[0].action == script[0]
      invariant IsRun(trace, old(Now(k)), Now(k), stage == Ended)
      invariant forall t | t in trace :: t.action in script
      invariant stage != Ended ==> RunPromise(trace, g0, m0, k.g, k.mem, p, e)
    {
      if stage == Ended {
        return;
      }
      if Enabled(k, script[n], stage) {
        ghost var before := Now(k);
        stage := Step(k, script[n], stage);
        OneMoreTaken(trace, old(Now(k)), before, script[n], Now(k), stage == Ended);
        if stage != Ended {
          WalksThen(k.boot.kern, m0, before.mem, k.mem);
          OneStepKeeps(trace, g0, m0, before, script[n], k.g, k.mem, p, e);
        }
        trace := trace + [Taken(before, script[n])];
      }
    }
    PromiseKept(trace, g0, m0, k.g, k.mem, p, e, stage);
    if stage != Ended {
      StageSees(k, stage, m0);
    }
  }

  lemma PromiseKept(trace: seq<Taken>, g0: Graph, m0: seq<Frame>, g: Graph, m: seq<Frame>, p: nat, e: nat, stage: Stage)
    requires e < NENV && (stage != Ended ==> RunPromise(trace, g0, m0, g, m, p, e))
    ensures stage != Ended && Dir(e) in g0 && LeftAlone(trace, e) ==> Dir(e) in g && Unharmed(g0, m0, g, m, e)
    ensures stage != Ended && ReadOnly(g0, p) && InUse(trace, p) && Referenced(g, p) ==> ReadOnly(g, p)
  {
  }

  lemma StageSizes(k: Kernel, stage: Stage)
    requires StageOk(k, stage) && stage != Ended
    ensures |k.envs| == |k.mail| == |k.allocs| == NENV
  {
    hide Inv, EnvInv, RunOk, Coherent, LogOk;
    MailSizes(k.envs, k.mail, k.allocs, k.sent);
  }

  lemma StartsOutside(k: Kernel)
    requires SystemInv(k) && k.lock == None
    ensures StageOk(k, Outside)
  {
  }
}

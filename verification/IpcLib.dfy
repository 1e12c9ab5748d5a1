/** lib/ipc.c: ipc_send and ipc_recv as user programs of one environment, in runs of the whole system. */
module IpcLib {
  import opened Layout
  import opened EnvId
  import opened EnvState
  import opened Steps
  import opened AddressSpace
  import opened Pmap
  import opened Syscall
  import opened RunState
  import opened Ipc
  import opened Run
  import opened Traps
  import opened System

  /** Slot `e` still holds the environment that its allocation number `a` made. */
  ghost predicate Alive(k: Kernel, e: nat, a: nat)
    reads k`envs, k`allocs
  {
    e < NENV == |k.envs| == |k.allocs| && k.envs[e].status != Free && k.allocs[e] == a
  }

  /** The same action, with the call that the program of `e` makes at this point. */
  function Instead(cpus: seq<Cpu>, action: Action, e: nat, call: Call): Action {
    if CallOf(cpus, action, e) then ServeTrap(action.c, SystemCall(call)) else action
  }

  /** How a library call stands: it has done what it is for; it has given up with an error; it goes on; its environment
      was destroyed; or the whole run ended. */
  datatype Standing = Finished | GaveUp | Going | Killed | RunOver

  /** The steps of a run in which `e` makes only these calls, and everything else is in the script. */
  ghost predicate Runs(trace: seq<Taken>, script: seq<Action>, e: nat, calls: set<Call>) {
    forall t | t in trace ::
      if CallOf(t.before.cpus, t.action, e) then t.action.cause.call in calls else t.action in script
  }

  lemma OneMoreStep(trace: seq<Taken>, script: seq<Action>, before: Moment, n: nat, e: nat, call: Call,
                    calls: set<Call>)
    requires Runs(trace, script, e, calls) && call in calls && n < |script|
    ensures Runs(trace + [Taken(before, Instead(before.cpus, script[n], e, call))], script, e, calls)
  {
  }

  /** The system calls that `e` makes in a run, in order. */
  ghost function OwnCalls(trace: seq<Taken>, e: nat): seq<Call> {
    if trace == [] then []
    else
      var t := trace[|trace| - 1];
      OwnCalls(trace[..|trace| - 1], e) + if CallOf(t.before.cpus, t.action, e) then [t.action.cause.call] else []
  }

  /** Send, yield, send again, and so on. */
  predicate Alternates(calls: seq<Call>, send: Call) {
    forall i | 0 <= i < |calls| :: calls[i] == if i % 2 == 0 then send else Yield
  }

  lemma NextAlternates(calls: seq<Call>, send: Call, call: Call)
    requires Alternates(calls, send) && call == if |calls| % 2 == 0 then send else Yield
    ensures Alternates(calls + [call], send)
  {
  }

  lemma NextCall(trace: seq<Taken>, before: Moment, action: Action, e: nat, call: Call)
    ensures OwnCalls(trace + [Taken(before, Instead(before.cpus, action, e, call))], e) ==
            if CallOf(before.cpus, action, e) then OwnCalls(trace, e) + [call] else OwnCalls(trace, e)
  {
    var t := Taken(before, Instead(before.cpus, action, e, call));
    assert (trace + [t])[..|trace|] == trace;
  }

  /** The run was ended by `e` itself. */
  ghost predicate EndedBy(trace: seq<Taken>, e: nat) {
    trace != [] && var t := trace[|trace| - 1]; CallOf(t.before.cpus, t.action, e)
  }

  /** Sending no page ends no run. */
  lemma PlainSendGoesOn(trace: seq<Taken>, script: seq<Action>, first: Moment, e: nat, toEnv: int, value: nat,
                        srcva: nat, perm: Word, now: Moment)
    requires Runs(trace, script, e, {TrySendCall(toEnv, value, srcva, perm), Yield}) && srcva >= UTOP
    requires IsRun(trace, first, now, true)
    ensures !EndedBy(trace, e)
  {
    hide TransferResult, Resolve;
    var t := trace[|trace| - 1];
    assert Ends(t.before, t.action) && t in trace;
  }

  /** A caller of ipc_recv ends the run only where nothing else can run. */
  lemma LastReceiver(trace: seq<Taken>, script: seq<Action>, first: Moment, e: nat, dstva: nat, now: Moment)
    requires Runs(trace, script, e, {RecvCall(dstva)}) && IsRun(trace, first, now, true)
    ensures EndedBy(trace, e) ==> NothingElse(trace[|trace| - 1].before.envs, e)
  {
    var t := trace[|trace| - 1];
    assert Ends(t.before, t.action);
    if CallOf(t.before.cpus, t.action, e) {
      assert t in trace;
      assert CallEnds(t.before, e, t.action.cause.call);
    }
  }

  /** Whether the program of ipc_send will call sys_ipc_try_send or sys_yield next. */
  datatype Point = Sends | Yields

  /** The caller of a system call is RUNNING, so it does not wait for a message. */
  lemma CallerRuns(k: Kernel, stage: Stage, action: Action, e: nat)
    requires StageOk(k, stage) && stage != Ended && Enabled(k, action, stage) && CallOf(k.cpus, action, e)
    ensures e < NENV == |k.envs| == |k.mail| && k.envs[e].status == Running && !k.envs[e].recving
    ensures k.lock == Some(action.c) && stage == Entered
  {
    hide Inv, EnvInv, Coherent, MailOk, LogOk, RunOk;
    RunningIsNotReceiving(k, e);
    CurrentIsLive(k, action.c);
  }

  /** Steps that are no call of `e` deliver nothing in its name. */
  lemma OthersDeliver(action: Action, next: Stage, cpus: seq<Cpu>, envs: seq<Env>, mail: seq<History>, allocs: seq<nat>,
                      sent: seq<Delivery>, envs': seq<Env>, mail': seq<History>, allocs': seq<nat>,
                      sent': seq<Delivery>, e: nat, a: nat)
    requires StepLogged(action, next, cpus, envs, mail, allocs, sent, envs', mail', allocs', sent')
    requires !CallOf(cpus, action, e)
    ensures MadeBy(sent', Party(e, a)) == MadeBy(sent, Party(e, a))
  {
    hide Grows, SameAllocs, MadeBy;
    if sent' != sent {
      OneMoreDelivery(sent, sent'[|sent|], Party(e, a));
    }
  }

  /** An own call delivers one message in the name of `e` if it is a sys_ipc_try_send that returns 0, and else none. */
  lemma OwnDelivers(action: Action, next: Stage, cpus: seq<Cpu>, envs: seq<Env>, mail: seq<History>, allocs: seq<nat>,
                    sent: seq<Delivery>, envs': seq<Env>, mail': seq<History>, allocs': seq<nat>, sent': seq<Delivery>,
                    e: nat) returns (d: Delivery)
    requires StepLogged(action, next, cpus, envs, mail, allocs, sent, envs', mail', allocs', sent')
    requires CallOf(cpus, action, e) && e < NENV == |envs| == |allocs| && !envs[e].recving
    ensures var done := action.cause.call.TrySendCall? && next == Served && e < |envs'| && envs'[e].tf.eax == 0;
      && MadeBy(sent', Party(e, allocs[e])) == MadeBy(sent, Party(e, allocs[e])) + (if done then [d] else [])
      && (done ==> DeliveredTo(d, action.cause.call.envid, action.cause.call.value, e, envs, allocs, mail'))
    ensures action.cause.call.TrySendCall? ==> next != Outside
  {
    hide Grows, SameAllocs, MadeBy;
    d := Delivery(Party(e, allocs[e]), Party(0, 0), Message(0, 0));
    if sent' != sent {
      d := sent'[|sent|];
      OneMoreDelivery(sent, d, Party(e, allocs[e]));
    }
  }

  /** `d` is a message from `e` with this value to the environment that has the id `envid`, and the last event of that
      environment's history. */
  ghost predicate DeliveredTo(d: Delivery, envid: int, value: nat, e: nat, envs: seq<Env>, allocs: seq<nat>,
                              mail: seq<History>)
  {
    && e < |envs| == |allocs| == |mail|
    && d.m == Message(value, envs[e].id) && d.sender == Party(e, allocs[e])
    && d.receiver.slot < |envs| && d.receiver.alloc == allocs[d.receiver.slot]
    && envs[d.receiver.slot].id == envid && d.receiver.slot != e
    && mail[d.receiver.slot] != [] && mail[d.receiver.slot][|mail[d.receiver.slot]| - 1] == Sent(d.m)
  }

  /** One action of a run in which the program of `e` is about to make the system call `call`. What is delivered in the
      name of `e` is one message if that is a sys_ipc_try_send that returns 0, and nothing otherwise. */
  method StepOf(k: Kernel, stage: Stage, e: nat, ghost a: nat, action: Action, call: Call) returns (next: Stage,
                ghost d: Delivery)
    requires StageOk(k, stage) && stage != Ended && Alive(k, e, a)
    requires Enabled(k, Instead(k.cpus, action, e, call), stage)
    modifies k
    ensures StageOk(k, next) && (next != Ended ==> |k.envs| == NENV)
    ensures next == Ended <==> Ends(old(Now(k)), Instead(old(k.cpus), action, e, call))
    ensures next != Ended ==> Follows(Taken(old(Now(k)), Instead(old(k.cpus), action, e, call)), Now(k))
    ensures next != Ended && k.envs[e].status != Free ==> Alive(k, e, a)
    ensures
      var own := CallOf(old(k.cpus), action, e);
      var done := own && call.TrySendCall? && next == Served && e < |k.envs| && k.envs[e].tf.eax == 0;
      && MadeBy(k.sent, Party(e, a)) == MadeBy(old(k.sent), Party(e, a)) + (if done then [d] else [])
      && (done ==> DeliveredTo(d, call.envid, call.value, e, old(k.envs), old(k.allocs), k.mail))
    ensures CallOf(old(k.cpus), action, e) && call.TrySendCall? ==> next == Served || next == Ended
  {
    hide StageOk, Enabled, StepLogged, Forward, DeliveredTo, MadeBy, Ends, Isolates;
    ghost var cpus, envs, mail, allocs, sent := k.cpus, k.envs, k.mail, k.allocs, k.sent;
    var act := Instead(k.cpus, action, e, call);
    if CallOf(k.cpus, action, e) {
      CallerRuns(k, stage, act, e);
    }
    next := Step(k, act, stage);
    if next != Ended {
      StageSizes(k, next);
      SameAllocation(act, next, cpus, envs, mail, allocs, sent, k.envs, k.mail, k.allocs, k.sent, e);
    }
    if CallOf(cpus, action, e) {
      d := OwnDelivers(act, next, cpus, envs, mail, allocs, sent, k.envs, k.mail, k.allocs, k.sent, e);
    } else {
      d := Delivery(Party(0, 0), Party(0, 0), Message(0, 0));
      OthersDeliver(act, next, cpus, envs, mail, allocs, sent, k.envs, k.mail, k.allocs, k.sent, e, a);
    }
  }

  lemma SameAllocation(action: Action, next: Stage, cpus: seq<Cpu>, envs: seq<Env>, mail: seq<History>,
                       allocs: seq<nat>,
                       sent: seq<Delivery>, envs': seq<Env>, mail': seq<History>, allocs': seq<nat>,
                       sent': seq<Delivery>, e: nat)
    requires StepLogged(action, next, cpus, envs, mail, allocs, sent, envs', mail', allocs', sent') && next != Ended
    requires e < |envs| && e < NENV && envs[e].status != Free
    ensures e < |allocs'| && e < |allocs| && allocs'[e] == allocs[e]
  {
    hide Grows, CallLogged;
  }

  /** The ids of environments are those of their allocations. */
  ghost predicate IdsOk(envs: seq<Env>, allocs: seq<nat>) {
    |envs| == |allocs| == NENV && forall e | 0 <= e < NENV :: envs[e].id == IdAfter(allocs[e], e)
  }

  lemma IdsOfAllocations(k: Kernel, stage: Stage)
    requires StageOk(k, stage) && stage != Ended
    ensures IdsOk(k.envs, k.allocs)
  {
    hide Inv, Coherent, MailOk, LogOk, RunOk, IdAfter;
    EnvSizes(k.envs, k.envFreeList, k.envFree, k.allocs, k.g);
  }

  /** `d` is the message (value, id) to the environment with id `toEnv`, and the last event of its history. */
  ghost predicate Arrived(d: Delivery, toEnv: int, value: nat, id: int, mail: seq<History>) {
    && d.m == Message(value, id) && IdAfter(d.receiver.alloc, d.receiver.slot) == toEnv
    && d.receiver.slot < |mail| && mail[d.receiver.slot] != []
    && mail[d.receiver.slot][|mail[d.receiver.slot]| - 1] == Sent(d.m)
  }

  lemma HasArrived(d: Delivery, toEnv: int, value: nat, e: nat, envs: seq<Env>, allocs: seq<nat>, mail: seq<History>)
    requires DeliveredTo(d, toEnv, value, e, envs, allocs, mail) && IdsOk(envs, allocs)
    ensures Arrived(d, toEnv, value, envs[e].id, mail)
  {
    hide IdAfter;
  }

  lemma SameId(envs: seq<Env>, allocs: seq<nat>, envs': seq<Env>, allocs': seq<nat>, e: nat)
    requires IdsOk(envs, allocs) && IdsOk(envs', allocs') && e < NENV && allocs[e] == allocs'[e]
    ensures envs[e].id == envs'[e].id
  {
    hide IdAfter;
  }

  /** ipc_send(toEnv, value, pg, perm) of environment `e`, in an arbitrary run: whenever the script has `e` make a
      system call, it is the next one of the program, sys_ipc_try_send and sys_yield in turn, and everything else in the
      script happens in between. The program finishes after exactly one message of this environment, which has arrived
      at the environment with id `toEnv`; it panics on an error other than -E_IPC_NOT_RECV, and then, and as long as it
      goes on, it has delivered nothing. The run ends before that only by a step that ends runs, which is not its own if
      it sends no page. */
  method IpcSend(k: Kernel, stage0: Stage, e: nat, toEnv: int, value: nat, pg: nat, perm: Word, script: seq<Action>)
    returns (r: Standing, stage: Stage, ghost d: Delivery, ghost trace: seq<Taken>)
    requires StageOk(k, stage0) && stage0 != Ended && e < NENV == |k.envs| == |k.allocs| && k.envs[e].status != Free
    modifies k
    ensures StageOk(k, stage) && (r.RunOver? <==> stage == Ended)
    ensures MadeBy(k.sent, Party(e, old(k.allocs)[e])) ==
            MadeBy(old(k.sent), Party(e, old(k.allocs)[e])) + if r.Finished? then [d] else []
    ensures r.Finished? ==> Arrived(d, toEnv, value, old(k.envs)[e].id, k.mail)
    ensures r.Finished? || r.GaveUp? ==> e < |k.envs|
    ensures r.Finished? ==> k.envs[e].tf.eax == 0
    ensures r.GaveUp? ==> k.envs[e].tf.eax != 0 && k.envs[e].tf.eax != E_IPC_NOT_RECV
    ensures r.Going? ==> Alive(k, e, old(k.allocs)[e])
    ensures r.Killed? ==> e < |k.envs| && k.envs[e].status == Free
    ensures IsRun(trace, old(Now(k)), Now(k), r.RunOver?)
    ensures Runs(trace, script, e, {TrySendCall(toEnv, value, if pg == 0 then UTOP else pg, perm), Yield})
    ensures Alternates(OwnCalls(trace, e), TrySendCall(toEnv, value, if pg == 0 then UTOP else pg, perm))
    ensures r.Finished? || r.GaveUp? ==> |OwnCalls(trace, e)| % 2 == 1
    ensures r.RunOver? && EndedBy(trace, e) ==> 0 < pg < UTOP
  {
    hide StageOk, Enabled, DeliveredTo, MadeBy, IdsOk, Arrived, Ends, IsRun, Runs, EndedBy, Instead, Follows,
         OwnCalls, CallOf, Alternates;
    var srcva := if pg == 0 then UTOP else pg;
    var point := Sends;
    stage, r, d, trace := stage0, Going, Delivery(Party(0, 0), Party(0, 0), Message(0, 0)), [];
    ghost var first, calls := Now(k), {TrySendCall(toEnv, value, srcva, perm), Yield};
    NoStep(script, first, e, calls);
    ghost var a := k.allocs[e];
    IdsOfAllocations(k, stage);
    for n := 0 to |script|
      invariant StageOk(k, stage) && stage != Ended && Alive(k, e, a)
      invariant MadeBy(k.sent, Party(e, a)) == MadeBy(old(k.sent), Party(e, a))
      invariant IsRun(trace, first, Now(k), false) && Runs(trace, script, e, calls)
      invariant Alternates(OwnCalls(trace, e), TrySendCall(toEnv, value, srcva, perm))
      invariant |OwnCalls(trace, e)| % 2 == if point.Sends? then 0 else 1
    {
      var own := CallOf(k.cpus, script[n], e);
      var call := if point.Sends? then TrySendCall(toEnv, value, srcva, perm) else Yield;
      if Enabled(k, Instead(k.cpus, script[n], e, call), stage) {
        ghost var envs, allocs, before := k.envs, k.allocs, Now(k);
        IdsOfAllocations(k, stage);
        stage, d := StepOf(k, stage, e, a, script[n], call);
        OneMoreTaken(trace, first, before, Instead(before.cpus, script[n], e, call), Now(k), stage == Ended);
        OneMoreStep(trace, script, before, n, e, call, calls);
        NextCall(trace, before, script[n], e, call);
        NextAlternates(OwnCalls(trace, e), TrySendCall(toEnv, value, srcva, perm), call);
        trace := trace + [Taken(before, Instead(before.cpus, script[n], e, call))];
        if stage == Ended {
          if srcva >= UTOP {
            PlainSendGoesOn(trace, script, first, e, toEnv, value, srcva, perm, Now(k));
          }
          return RunOver, stage, d, trace;
        }
        if own && point.Sends? {
          var errcode := k.envs[e].tf.eax;
          if errcode == 0 {
            HasArrived(d, toEnv, value, e, envs, allocs, k.mail);
            SameId(old(k.envs), old(k.allocs), envs, allocs, e);
            return Finished, stage, d, trace;
          }
          if errcode != E_IPC_NOT_RECV {
            return GaveUp, stage, d, trace;
          }
        }
        if k.envs[e].status == Free {
          return Killed, stage, d, trace;
        }
        if own {
          point := if point.Sends? then Yields else Sends;
        }
      }
    }
  }

  lemma NoStep(script: seq<Action>, first: Moment, e: nat, calls: set<Call>)
    ensures IsRun([], first, first, false) && Runs([], script, e, calls) && OwnCalls([], e) == []
    ensures forall send :: Alternates([], send)
  {
  }

  /** The environment of a CPU that enters the kernel or makes a system call is RUNNING or DYING. */
  lemma ActingIsOnCpu(k: Kernel, stage: Stage, action: Action, e: nat)
    requires StageOk(k, stage) && stage != Ended && Enabled(k, action, stage) && Acting(k.cpus, action) == Some(e)
    ensures e < NENV == |k.envs| && OnCpu(k.envs[e].status)
  {
    hide Inv, EnvInv, Coherent, MailOk, LogOk, RunOk;
    if action.TakeLock? {
      CurrentRuns(k, action.c);
    } else {
      CallerRuns(k, stage, action, e);
    }
  }

  /** What the invariant says of a live environment's history. */
  lemma BoxHolds(k: Kernel, stage: Stage, e: nat)
    requires StageOk(k, stage) && stage != Ended && e < NENV
    ensures |k.envs| == |k.mail| == |k.allocs| == NENV
    ensures k.envs[e].status != Free ==> BoxOk(k.envs[e], k.mail[e])
    ensures k.envs[e].status != Free && k.envs[e].recving ==> k.envs[e].status == NotRunnable
  {
    hide Inv, EnvInv, Coherent, LogOk, BoxOk;
  }

  /** Between receives a step of others leaves a history alone: its next event must be a new request. */
  lemma IdleStep(v: Env, h: History, v': Env, h': History)
    requires |h| % 3 == 0 && Touched(v, h, v', h') && BoxOk(v', h')
    ensures h' == h
  {
    assert |h'| > |h| ==> InTurn(h', |h|);
  }

  /** An environment whose sys_ipc_recv has not returned to user mode yet: since `h0` it has asked, and perhaps a
      message was sent and its call returned; once a message was sent there is a 0 in its eax. */
  ghost predicate Waits(v: Env, h: History, h0: History) {
    && |h0| % 3 == 0 && h0 + [Asked] <= h && |h| <= |h0| + 3 && Rendezvous(h)
    && (|h| > |h0| + 1 ==> v.tf.eax == 0)
  }

  lemma WaitStarts(v: Env, h: History, h0: History)
    requires |h0| % 3 == 0 && h == h0 + [Asked] && BoxOk(v, h)
    ensures Waits(v, h, h0)
  {
  }

  lemma WaitStep(v: Env, h: History, v': Env, h': History, h0: History)
    requires Waits(v, h, h0) && Touched(v, h, v', h') && BoxOk(v', h')
    ensures Waits(v', h', h0)
  {
    assert |h'| > |h0| + 3 ==> InTurn(h', |h0| + 3);
  }

  /** When the waiting environment runs again, it has received one message, which is in its fields, and finds 0 in eax.
      */
  lemma WaitEnds(v: Env, h: History, h0: History)
    requires Waits(v, h, h0) && BoxOk(v, h) && v.status == Running && !v.recving
    ensures var m := Message(v.value, v.from); h == h0 + [Asked, Sent(m), Got(m)]
    ensures v.tf.eax == 0
  {
    assert |h| == |h0| + 3;
    assert InTurn(h, |h0|) && InTurn(h, |h0| + 1) && InTurn(h, |h0| + 2);
  }

  /** One action of a run in which `e` does not act, or enters the kernel. */
  lemma OthersTouch(action: Action, next: Stage, cpus: seq<Cpu>, envs: seq<Env>, mail: seq<History>, allocs: seq<nat>,
                    sent: seq<Delivery>, envs': seq<Env>, mail': seq<History>, allocs': seq<nat>, sent': seq<Delivery>,
                    e: nat)
    requires StepLogged(action, next, cpus, envs, mail, allocs, sent, envs', mail', allocs', sent') && next != Ended
    requires e < NENV && envs[e].status != Free && !CallOf(cpus, action, e)
    ensures |envs'| == |mail'| == NENV
    ensures envs'[e].status != Free ==>
      mail'[e] == mail[e] || Touched(envs[e], mail[e], envs'[e], mail'[e])
    ensures envs'[e].status != Free && Acting(cpus, action) != Some(e) ==> Touched(envs[e], mail[e], envs'[e], mail'[e])
  {
    hide CallLogged, SameAllocs, Touched;
  }

  /** The system call of ipc_recv: it refuses and changes no history, or its caller blocks and has asked. */
  lemma RecvCallDoes(action: Action, next: Stage, cpus: seq<Cpu>, envs: seq<Env>, mail: seq<History>, allocs: seq<nat>,
                     sent: seq<Delivery>, envs': seq<Env>, mail': seq<History>, allocs': seq<nat>, sent': seq<Delivery>,
                     e: nat)
    requires StepLogged(action, next, cpus, envs, mail, allocs, sent, envs', mail', allocs', sent') && next != Ended
    requires next != Entered && CallOf(cpus, action, e) && action.cause.call.RecvCall?
    ensures |envs'| == |mail'| == |mail| == NENV && e < NENV
    ensures next == Served ==> mail'[e] == mail[e] && envs'[e].tf.eax == E_INVAL
    ensures next == Outside ==> mail'[e] == mail[e] + [Asked] && envs'[e].status == NotRunnable && envs'[e].recving
  {
    hide Touched, SameAllocs;
  }

  /** One action of a run for the program of ipc_recv, whose call is still to come or has been made. */
  method RecvStep(k: Kernel, stage: Stage, e: nat, action: Action, ghost h0: History, ghost called: bool)
    returns (next: Stage)
    requires StageOk(k, stage) && stage != Ended && Enabled(k, action, stage)
    requires e < NENV == |k.envs| == |k.mail| && k.envs[e].status != Free && |h0| % 3 == 0
    requires CallOf(k.cpus, action, e) ==> action.cause.call.RecvCall?
    requires if called then Waits(k.envs[e], k.mail[e], h0) && !OnCpu(k.envs[e].status) else k.mail[e] == h0
    modifies k
    ensures StageOk(k, next) && (next == Ended <==> Ends(old(Now(k)), action))
    ensures next != Ended ==> Follows(Taken(old(Now(k)), action), Now(k))
    ensures next != Ended ==> |k.envs| == |k.mail| == NENV
    ensures next != Ended && k.envs[e].status != Free ==>
      if CallOf(old(k.cpus), action, e) && next == Served then k.mail[e] == h0
      else if CallOf(old(k.cpus), action, e) || called then Waits(k.envs[e], k.mail[e], h0)
      else k.mail[e] == h0
    ensures CallOf(old(k.cpus), action, e) ==> !called
    ensures next != Ended && CallOf(old(k.cpus), action, e) ==>
      if next == Served then k.mail[e] == h0 && k.envs[e].tf.eax == E_INVAL
      else k.envs[e].status == NotRunnable && k.envs[e].recving
  {
    hide StageOk, Enabled, StepLogged, Forward, BoxOk, Touched, Waits, Ends, Isolates;
    ghost var cpus, envs, mail, allocs, sent := k.cpus, k.envs, k.mail, k.allocs, k.sent;
    if Acting(k.cpus, action) == Some(e) {
      ActingIsOnCpu(k, stage, action, e);
    }
    if CallOf(k.cpus, action, e) {
      CallerRuns(k, stage, action, e);
    }
    next := Step(k, action, stage);
    if next != Ended {
      BoxHolds(k, next, e);
      if CallOf(cpus, action, e) {
        RecvCallDoes(action, next, cpus, envs, mail, allocs, sent, k.envs, k.mail, k.allocs, k.sent, e);
        if next == Outside {
          WaitStarts(k.envs[e], k.mail[e], h0);
        }
      } else {
        OthersTouch(action, next, cpus, envs, mail, allocs, sent, k.envs, k.mail, k.allocs, k.sent, e);
        if k.envs[e].status != Free && called {
          WaitStep(envs[e], mail[e], k.envs[e], k.mail[e], h0);
        } else if k.envs[e].status != Free && k.mail[e] != mail[e] {
          IdleStep(envs[e], mail[e], k.envs[e], k.mail[e]);
        }
      }
    }
  }

  /** Step `t`, which led to `m`, is a sys_ipc_try_send of this value, by the environment with the id `from`, to `e`;
      and if it passed a page and `dstva` is an address for one, the sender's page is at `dstva` in `e` now. */
  ghost predicate CameFrom(t: Taken, m: Moment, e: nat, dstva: nat, value: nat, from: int, perm: Flags) {
    && MakesCall(t.action) && t.action.cause.call.TrySendCall?
    && t.action.c < |t.before.cpus| && t.before.cpus[t.action.c].env.Some?
    && var sender, call := t.before.cpus[t.action.c].env.value, t.action.cause.call;
      && sender < |t.before.envs| && e < |t.before.envs|
      && call.value == value && t.before.envs[sender].id == from && t.before.envs[e].id == call.envid
      && if call.srcva < UTOP && dstva < UTOP then
           && perm == call.perm.flags
           && PGNUM(call.srcva) in Flat(t.before.g, sender) && PGNUM(dstva) in Flat(m.g, e)
           && Flat(m.g, e)[PGNUM(dstva)] ==
              Word(Flat(t.before.g, sender)[PGNUM(call.srcva)].addr, call.perm.flags.(p := true))
         else perm == NO_FLAGS
  }

  /** Where the request of `e` for a message stands: while it waits, its field holds the address `dstva`; when it has
      been woken, its fields hold what came with the send in step `woken`. */
  ghost predicate Awaits(trace: seq<Taken>, now: Moment, e: nat, dstva: nat, called: bool, woken: nat) {
    && e < |now.envs|
    && (forall t | t in trace :: KeepsAddress(t.before.envs, e, dstva))
    && (now.envs[e].recving ==> called) && KeepsAddress(now.envs, e, dstva)
    && (called && !now.envs[e].recving ==>
          && woken < |trace|
          && CameFrom(trace[woken], AfterStep(trace, now, woken), e, dstva, now.envs[e].value, now.envs[e].from,
                      now.envs[e].perm))
  }

  predicate KeepsAddress(envs: seq<Env>, e: nat, dstva: nat) {
    e < |envs| && (envs[e].recving ==> envs[e].dstva == dstva)
  }

  lemma AwaitsStill(trace: seq<Taken>, t: Taken, m: Moment, e: nat, dstva: nat, called: bool, woken: nat)
    returns (woken': nat)
    requires Awaits(trace, t.before, e, dstva, called, woken) && Follows(t, m) && e < NENV
    requires t.before.envs[e].status != Free && (|m.envs| == NENV ==> m.envs[e].status != Free)
    requires var own := CallOf(t.before.cpus, t.action, e);
      && (own ==> t.action.cause.call == RecvCall(dstva) && !called)
      && (own && |m.envs| == NENV ==> m.envs[e].recving)
    ensures var own := CallOf(t.before.cpus, t.action, e);
      Awaits(trace + [t], m, e, dstva, called || own, woken')
  {
    hide Isolates, MayMove, Flat;
    assert StillItself(t.before.envs, t.before.cpus, t.action, e, t.before.g, m.envs, m.g);
    woken' := if t.before.envs[e].recving && !m.envs[e].recving then |trace| else woken;
  }

  /** ipc_recv(&from, pg, &perm) of environment `e`, in an arbitrary run: the first system call that the script has
      `e` make is its sys_ipc_recv. The program gives up with the error of that call, and then nothing was received;
      it finishes when `e` runs again, and then its call has returned 0, exactly one message was sent to it and
      received, and what it returns and stores is that message and the permission that came with it: what one
      sys_ipc_try_send of the run has passed, whose page, if it passed one, it has got at `pg`. All the time that it
      waits, it asks for a page at `pg`. The run ends before that only by a step that ends runs, its own only where
      nothing else can run. */
  method IpcRecv(k: Kernel, stage0: Stage, e: nat, pg: nat, script: seq<Action>)
    returns (r: Standing, stage: Stage, value: int, from: int, perm: Flags, ghost trace: seq<Taken>, ghost woken: nat)
    requires StageOk(k, stage0) && stage0 != Ended && e < NENV == |k.envs| == |k.mail| && k.envs[e].status != Free
    requires !Blocked(k.mail[e]) && !Woken(k.mail[e])
    modifies k
    ensures StageOk(k, stage) && (r.RunOver? <==> stage == Ended)
    ensures r.Finished? ==>
      && e < |k.envs| == |k.mail| && k.envs[e].tf.eax == 0
      && var m := Message(k.envs[e].value, k.envs[e].from);
        && value == m.value && from == m.from && perm == k.envs[e].perm
        && k.mail[e] == old(k.mail[e]) + [Asked, Sent(m), Got(m)]
    ensures r.Finished? ==>
      woken < |trace| && value >= 0
      && CameFrom(trace[woken], AfterStep(trace, Now(k), woken), e, if pg == 0 then UTOP else pg, value, from, perm)
    ensures forall t | t in trace :: KeepsAddress(t.before.envs, e, if pg == 0 then UTOP else pg)
    ensures r.GaveUp? ==>
      && e < |k.envs| == |k.mail| && value == k.envs[e].tf.eax == E_INVAL && from == 0 && perm == NO_FLAGS
      && k.mail[e] == old(k.mail[e])
    ensures IsRun(trace, old(Now(k)), Now(k), r.RunOver?)
    ensures Runs(trace, script, e, {RecvCall(if pg == 0 then UTOP else pg)})
    ensures OwnCalls(trace, e) == [] || OwnCalls(trace, e) == [RecvCall(if pg == 0 then UTOP else pg)]
    ensures r.Finished? || r.GaveUp? ==> OwnCalls(trace, e) != []
    ensures r.Killed? ==> e < |k.envs| && (k.envs[e].status == Free || k.envs[e].status == Dying)
    ensures r.Going? ==>
      e < |k.envs| && k.envs[e].status != Free && (OwnCalls(trace, e) != [] ==> !OnCpu(k.envs[e].status))
    ensures r.RunOver? && EndedBy(trace, e) ==> NothingElse(trace[|trace| - 1].before.envs, e)
  {
    hide StageOk, Enabled, StepLogged, Forward, BoxOk, Touched, Waits, Woken, Blocked, Ends, IsRun, Runs, EndedBy,
         NothingElse, Follows, CameFrom, AfterStep, OwnCalls;
    var dstva := if pg == 0 then UTOP else pg;
    var called := false;
    ghost var h0 := k.mail[e];
    AtRest(h0);
    stage, r, value, from, perm, trace, woken := stage0, Going, 0, 0, NO_FLAGS, [], 0;
    NotAsked(k, stage, e);
    ghost var first, calls := Now(k), {RecvCall(dstva)};
    NoStep(script, first, e, calls);
    for n := 0 to |script|
      invariant StageOk(k, stage) && stage != Ended
      invariant e < NENV == |k.envs| == |k.mail| && k.envs[e].status != Free
      invariant if called then Waits(k.envs[e], k.mail[e], h0) && !OnCpu(k.envs[e].status) else k.mail[e] == h0
      invariant IsRun(trace, first, Now(k), false) && Runs(trace, script, e, calls)
      invariant Awaits(trace, Now(k), e, dstva, called, woken)
      invariant OwnCalls(trace, e) == if called then [RecvCall(dstva)] else []
    {
      var action := Instead(k.cpus, script[n], e, RecvCall(dstva));
      if Enabled(k, action, stage) {
        var own := CallOf(k.cpus, action, e);
        ghost var before := Now(k);
        stage := RecvStep(k, stage, e, action, h0, called);
        OneMoreTaken(trace, first, before, action, Now(k), stage == Ended);
        OneMoreStep(trace, script, before, n, e, RecvCall(dstva), calls);
        NextCall(trace, before, script[n], e, RecvCall(dstva));
        ghost var earlier := trace;
        trace := trace + [Taken(before, action)];
        if stage == Ended {
          LastReceiver(trace, script, first, e, dstva, Now(k));
          r := RunOver;
          return;
        }
        if own && stage == Served {
          var errcode := k.envs[e].tf.eax;
          r, value := GaveUp, errcode;
          return;
        }
        ghost var called0 := called;
        called := called || own;
        if k.envs[e].status == Free || (called && k.envs[e].status == Dying) {
          r := Killed;
          return;
        }
        woken := AwaitsStill(earlier, Taken(before, action), Now(k), e, dstva, called0, woken);
        if called && k.envs[e].status == Running {
          BoxHolds(k, stage, e);
          WaitEnds(k.envs[e], k.mail[e], h0);
          var thisenv := k.envs[e];
          r, value, from, perm := Finished, thisenv.value, thisenv.from, thisenv.perm;
          return;
        }
      }
    }
  }

  /** Between receives the environment does not wait. */
  lemma NotAsked(k: Kernel, stage: Stage, e: nat)
    requires StageOk(k, stage) && stage != Ended && e < NENV == |k.envs| == |k.mail| && k.envs[e].status != Free
    requires !Blocked(k.mail[e])
    ensures !k.envs[e].recving
  {
    BoxHolds(k, stage, e);
  }

  lemma AtRest(h: History)
    ensures !Blocked(h) && !Woken(h) <==> |h| % 3 == 0
  {
  }
}

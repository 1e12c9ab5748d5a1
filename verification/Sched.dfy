/** The circular scan of sched_yield (kern/sched.c:46-62). */
module Sched {
  import opened Layout
  import opened EnvState

  /** ScanSlot i of a scan that starts after slot `actual` (-1 when the CPU has no environment). */
  function ScanSlot(actual: int, i: nat): (e: nat)
    ensures e < NENV
  {
    (actual + i) % NENV
  }

  /** The first RUNNABLE slot at positions i, i + 1, ..., NENV of the scan. */
  function PickFrom(envs: seq<Env>, actual: int, i: nat): (r: Option<nat>)
    requires |envs| == NENV
    ensures r.Some? ==> r.value < NENV && envs[r.value].status == Runnable
    decreases NENV + 1 - i
  {
    if i > NENV then None
    else if envs[ScanSlot(actual, i)].status == Runnable then Some(ScanSlot(actual, i))
    else PickFrom(envs, actual, i + 1)
  }

  function Pick(envs: seq<Env>, actual: int): (r: Option<nat>)
    requires |envs| == NENV
    ensures r.Some? ==> r.value < NENV && envs[r.value].status == Runnable
  {
    PickFrom(envs, actual, 1)
  }

  /** How far slot `t` lies after slot `actual` in the circular order: 1 to NENV. */
  function Distance(actual: int, t: nat): (d: nat)
    ensures 1 <= d <= NENV
  {
    (t - actual - 1) % NENV + 1
  }

  lemma DistanceReaches(actual: int, t: nat)
    requires t < NENV && -1 <= actual < NENV
    ensures ScanSlot(actual, Distance(actual, t)) == t
  {
    var d := Distance(actual, t);
    assert actual + d == t || actual + d == t + NENV;
  }

  lemma DistanceUnique(actual: int, i: nat)
    requires 1 <= i <= NENV && -1 <= actual < NENV
    ensures Distance(actual, ScanSlot(actual, i)) == i
  {
    var t := ScanSlot(actual, i);
    assert t == actual + i || t == actual + i - NENV;
    assert t - actual - 1 == i - 1 || t - actual - 1 == i - 1 - NENV;
  }

  /** The scan finds the RUNNABLE slot nearest after `actual`. */
  lemma {:induction false} PickFromNearest(envs: seq<Env>, actual: int, i: nat, t: nat)
    requires |envs| == NENV && -1 <= actual < NENV && 1 <= i && t < NENV
    requires envs[t].status == Runnable && Distance(actual, t) >= i
    ensures PickFrom(envs, actual, i).Some?
    ensures i <= Distance(actual, PickFrom(envs, actual, i).value) <= Distance(actual, t)
    decreases NENV + 1 - i
  {
    DistanceReaches(actual, t);
    if envs[ScanSlot(actual, i)].status == Runnable {
      DistanceUnique(actual, i);
    } else {
      PickFromNearest(envs, actual, i + 1, t);
    }
  }

  /** The scan finds nothing exactly when no environment is RUNNABLE. */
  lemma PickNoneExactly(envs: seq<Env>, actual: int)
    requires |envs| == NENV && -1 <= actual < NENV
    ensures Pick(envs, actual) == None <==> forall e | 0 <= e < NENV :: envs[e].status != Runnable
  {
    if e :| 0 <= e < NENV && envs[e].status == Runnable {
      PickFromNearest(envs, actual, 1, e);
    }
  }

  /** The slot `i` places after `start` in the circle of all slots is RUNNABLE. */
  predicate RunnableAfter(envs: seq<Env>, start: int, i: nat)
    requires |envs| == NENV
  {
    envs[(start + i) % NENV].status == Runnable
  }

  /** `t` is the first RUNNABLE slot after `start` in that circle, `d` places on; the last place is `start` itself. */
  ghost predicate FirstAfter(envs: seq<Env>, start: int, d: nat, t: nat)
    requires |envs| == NENV
  {
    && 1 <= d <= NENV && t == (start + d) % NENV && RunnableAfter(envs, start, d)
    && forall i | 1 <= i < d :: !RunnableAfter(envs, start, i)
  }

  ghost predicate NearestAfter(envs: seq<Env>, start: int, t: nat)
    requires |envs| == NENV
  {
    exists d :: FirstAfter(envs, start, d, t)
  }

  /** The scan finds the first RUNNABLE slot. */
  lemma {:induction false} PickFromFirst(envs: seq<Env>, actual: int, i: nat) returns (d: nat)
    requires |envs| == NENV && -1 <= actual < NENV && 1 <= i
    requires forall j | 1 <= j < i :: !RunnableAfter(envs, actual, j)
    ensures PickFrom(envs, actual, i).Some? ==> FirstAfter(envs, actual, d, PickFrom(envs, actual, i).value)
    decreases NENV + 1 - i
  {
    d := i;
    if i <= NENV && !RunnableAfter(envs, actual, i) {
      d := PickFromFirst(envs, actual, i + 1);
    }
  }

  /** Picking another environment brings a RUNNABLE one strictly closer. */
  lemma PickApproaches(envs: seq<Env>, actual: int, t: nat)
    requires |envs| == NENV && -1 <= actual < NENV && t < NENV && envs[t].status == Runnable
    ensures Pick(envs, actual).Some?
    ensures Pick(envs, actual).value != t ==> Distance(Pick(envs, actual).value, t) < Distance(actual, t)
  {
    hide ScanSlot, Distance;
    PickFromNearest(envs, actual, 1, t);
    var p := Pick(envs, actual).value;
    if p != t {
      var i, d := Distance(actual, p), Distance(actual, t);
      DistanceReaches(actual, p);
      DistanceReaches(actual, t);
      StepsAdd(actual, i, d);
      DistanceUnique(p, d - i);
    }
  }

  lemma StepsAdd(actual: int, i: nat, d: nat)
    requires i <= d <= NENV && -1 <= actual < NENV
    ensures ScanSlot(ScanSlot(actual, i), d - i) == ScanSlot(actual, d)
  {
    var p := ScanSlot(actual, i);
    assert p == actual + i || p == actual + i - NENV || p == actual + i + NENV;
  }

  /** Bounded waiting: scan k starts after slot `start[k]`, and each scan starts where the one before has picked. Then
      an environment that is RUNNABLE at every scan is picked by one of the next NENV. */
  lemma {:induction false} PickedWithinBound(history: seq<seq<Env>>, start: seq<int>, t: nat) returns (k: nat)
    requires |history| == |start| > 0 && t < NENV && -1 <= start[0] < NENV && |history| >= Distance(start[0], t)
    requires forall k | 0 <= k < |history| :: |history[k]| == NENV && history[k][t].status == Runnable
    requires forall k | 0 <= k < |history| - 1 :: Some(start[k + 1]) == Chosen(Pick(history[k], start[k]))
    ensures k < Distance(start[0], t) && Pick(history[k], start[k]) == Some(t)
    decreases Distance(start[0], t)
  {
    PickApproaches(history[0], start[0], t);
    var p := Pick(history[0], start[0]).value;
    if p == t {
      return 0;
    }
    assert Some(start[1]) == Chosen(Pick(history[0], start[0]));
    forall k | 0 <= k < |history[1..]| - 1
      ensures Some(start[1..][k + 1]) == Chosen(Pick(history[1..][k], start[1..][k]))
    {
      assert Some(start[(k + 1) + 1]) == Chosen(Pick(history[k + 1], start[k + 1]));
    }
    k := PickedWithinBound(history[1..], start[1..], t);
    k := k + 1;
  }

  /** A slot as the start of the next scan. */
  function Chosen(p: Option<nat>): Option<int> {
    if p.Some? then Some(p.value) else None
  }

  /** Without the chain there is no bound: where every scan starts again at slot 0 and finds it RUNNABLE, every scan
      picks slot 0, however long another environment has been RUNNABLE. */
  lemma RestartingStarves(history: seq<seq<Env>>, t: nat)
    requires forall k | 0 <= k < |history| :: |history[k]| == NENV && history[k][0].status == Runnable
    requires 0 < t < NENV
    ensures forall k | 0 <= k < |history| :: Pick(history[k], -1) == Some(0) != Some(t)
  {
  }

  /** What has happened to a CPU: it scanned envs[] from after `start` and went on with `next` or with nothing, or the
      environment it had was destroyed under it. */
  datatype Turn = Scanned(envs: seq<Env>, start: int, next: Option<nat>) | Lost

  /** The slot after which a CPU scans, given the environment it has. */
  function StartOf(env: Option<nat>): int { if env.Some? then env.value else -1 }

  /** The environment a CPU has after these turns. */
  function HasAfter(turns: seq<Turn>): Option<nat> {
    if turns == [] then None
    else match turns[|turns| - 1] case Scanned(_, _, next) => next case Lost => None
  }

  /** Each scan starts after the environment the CPU had, goes on with the one picked and, if none is RUNNABLE, with the
      one it had or with none. */
  ghost predicate TurnOk(turns: seq<Turn>, k: nat)
    requires k < |turns|
  {
    turns[k].Scanned? ==>
      && |turns[k].envs| == NENV && turns[k].start == StartOf(HasAfter(turns[..k])) && -1 <= turns[k].start < NENV
      && var p := Pick(turns[k].envs, turns[k].start);
        turns[k].next == p || (p == None && turns[k].next == HasAfter(turns[..k]))
  }

  ghost predicate TurnsOk(turns: seq<Turn>) {
    forall k | 0 <= k < |turns| :: TurnOk(turns, k)
  }

  lemma NextTurn(turns: seq<Turn>, turn: Turn)
    requires TurnsOk(turns)
    requires turn.Scanned? ==>
      && |turn.envs| == NENV && turn.start == StartOf(HasAfter(turns)) && -1 <= turn.start < NENV
      && (turn.next == Pick(turn.envs, turn.start)
          || (Pick(turn.envs, turn.start) == None && turn.next == HasAfter(turns)))
    ensures TurnsOk(turns + [turn]) && HasAfter(turns + [turn]) == if turn.Scanned? then turn.next else None
  {
    hide Pick, HasAfter;
    forall k | 0 <= k < |turns + [turn]| ensures TurnOk(turns + [turn], k) {
      if k < |turns| {
        assert TurnOk(turns, k);
        assert (turns + [turn])[..k] == turns[..k];
      } else {
        assert (turns + [turn])[..k] == turns;
      }
    }
    LastTurn(turns, turn);
  }

  lemma LastTurn(turns: seq<Turn>, turn: Turn)
    ensures HasAfter(turns + [turn]) == if turn.Scanned? then turn.next else None
  {
  }

  /** A CPU whose environment is not destroyed in turns [i, i + n) scans from where it has picked. So an environment
      that is RUNNABLE at each of these scans is picked by one of them, if there are NENV. */
  lemma PickedInTurn(turns: seq<Turn>, i: nat, n: nat, t: nat) returns (k: nat)
    requires TurnsOk(turns) && i + n <= |turns| && n >= NENV && t < NENV
    requires forall j | i <= j < i + n ::
      turns[j].Scanned? && |turns[j].envs| == NENV && turns[j].envs[t].status == Runnable
    ensures i <= k < i + n && turns[k].next == Some(t)
  {
    hide Pick, PickFrom;
    var history := seq(n, j requires 0 <= j < n => turns[i + j].envs);
    var start := seq(n, j requires 0 <= j < n => turns[i + j].start);
    assert TurnOk(turns, i);
    forall j | 0 <= j < n - 1 ensures Some(start[j + 1]) == Chosen(Pick(history[j], start[j])) {
      assert TurnOk(turns, i + j) && TurnOk(turns, i + j + 1);
      assert turns[..i + j + 1] == turns[..i + j] + [turns[i + j]];
      LastTurn(turns[..i + j], turns[i + j]);
      PickNoneExactly(history[j], start[j]);
    }
    var j := PickedWithinBound(history, start, t);
    assert TurnOk(turns, i + j);
    k := i + j;
  }

  /** After the environment of a CPU has been destroyed its next scan starts at slot 0. */
  lemma ScanAfterLoss(turns: seq<Turn>, k: nat)
    requires TurnsOk(turns) && k + 1 < |turns| && turns[k].Lost? && turns[k + 1].Scanned?
    ensures turns[k + 1].start == -1
  {
    assert TurnOk(turns, k + 1);
    assert turns[..k + 1] == turns[..k] + [turns[k]];
  }
}

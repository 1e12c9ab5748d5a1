/** kern/spinlock.c with its DEBUG_SPINLOCK checks, at the granularity of single reads, writes and xchg. */
module Spinlock {
  import opened Layout

  /** The next access of a CPU to the lock. */
  datatype Point =
    | Outside          // not in spin_lock, not holding
    | ReadLocked       // spin_lock: holding() reads lk->locked
    | ReadCpu          //            holding() reads lk->cpu
    | Spin             //            xchg(&lk->locked, 1)
    | SetCpu           //            lk->cpu = thiscpu
    | Critical         // between spin_lock and spin_unlock
    | RereadLocked     // spin_unlock: holding() reads lk->locked
    | RereadCpu        //              holding() reads lk->cpu
    | ClearCpu         //              lk->cpu = 0
    | Release          //              xchg(&lk->locked, 0)
    | AlreadyHolding   // the panic in spin_lock
    | CannotRelease    // the panic in spin_unlock

  /** struct spinlock and where each CPU is. */
  datatype State = State(locked: bool, cpu: Option<nat>, at: seq<Point>)

  /** From the successful xchg to the releasing one. */
  predicate Owns(p: Point) {
    p == SetCpu || p == Critical || p == RereadLocked || p == RereadCpu || p == ClearCpu || p == Release
  }

  /** While lk->cpu names the owner. */
  predicate Named(p: Point) {
    p == Critical || p == RereadLocked || p == RereadCpu || p == ClearCpu
  }

  /** One access of CPU `c`. */
  function Next(s: State, c: nat): State
    requires c < |s.at|
  {
    match s.at[c]
    case Outside => s.(at := s.at[c := ReadLocked])
    case ReadLocked => s.(at := s.at[c := if s.locked then ReadCpu else Spin])
    case ReadCpu => s.(at := s.at[c := if s.cpu == Some(c) then AlreadyHolding else Spin])
    case Spin => s.(locked := true, at := s.at[c := if s.locked then Spin else SetCpu])
    case SetCpu => s.(cpu := Some(c), at := s.at[c := Critical])
    case Critical => s.(at := s.at[c := RereadLocked])
    case RereadLocked => s.(at := s.at[c := if s.locked then RereadCpu else CannotRelease])
    case RereadCpu => s.(at := s.at[c := if s.cpu == Some(c) then ClearCpu else CannotRelease])
    case ClearCpu => s.(cpu := None, at := s.at[c := Release])
    case Release => s.(locked := false, at := s.at[c := Outside])
    case AlreadyHolding => s
    case CannotRelease => s
  }

  ghost predicate Inv(s: State) {
    && (forall c, c' | 0 <= c < |s.at| && 0 <= c' < |s.at| && Owns(s.at[c]) && Owns(s.at[c']) :: c == c')
    && (s.locked <==> exists c :: 0 <= c < |s.at| && Owns(s.at[c]))
    && (forall c | 0 <= c < |s.at| :: s.cpu == Some(c) <==> Named(s.at[c])) && (s.cpu.Some? ==> s.cpu.value < |s.at|)
    && (forall c | 0 <= c < |s.at| :: s.at[c] != AlreadyHolding && s.at[c] != CannotRelease)
  }

  predicate Init(s: State) {
    !s.locked && s.cpu == None && forall c | 0 <= c < |s.at| :: s.at[c] == Outside
  }

  lemma InitInv(s: State)
    requires Init(s)
    ensures Inv(s)
  {
  }

  lemma NextKeepsInv(s: State, c: nat)
    requires Inv(s) && c < |s.at|
    ensures Inv(Next(s, c))
  {
    var t := Next(s, c);
    if Owns(s.at[c]) {
      assert s.locked;
      if s.at[c] != Release {
        assert Owns(t.at[c]);
      }
    } else if Owns(t.at[c]) {
      assert !s.locked;
    } else {
      if o :| 0 <= o < |s.at| && Owns(s.at[o]) {
        assert t.at[o] == s.at[o];
      }
    }
  }

  /** The state after the CPUs have made their accesses in the order of the schedule. */
  function RunSchedule(s: State, schedule: seq<nat>): (t: State)
    requires forall k | 0 <= k < |schedule| :: schedule[k] < |s.at|
    ensures |t.at| == |s.at|
    decreases schedule
  {
    if schedule == [] then s else RunSchedule(Next(s, schedule[0]), schedule[1..])
  }

  lemma {:induction false} RunKeepsInv(s: State, schedule: seq<nat>)
    requires Inv(s) && forall k | 0 <= k < |schedule| :: schedule[k] < |s.at|
    ensures Inv(RunSchedule(s, schedule))
    decreases schedule
  {
    if schedule != [] {
      NextKeepsInv(s, schedule[0]);
      RunKeepsInv(Next(s, schedule[0]), schedule[1..]);
    }
  }

  /** Safety of every interleaving of any number of CPUs: at most one is inside the critical section, and neither
      panic is reached. */
  lemma LockIsSafe(s: State, schedule: seq<nat>, c: nat, c': nat)
    requires Init(s) && (forall k | 0 <= k < |schedule| :: schedule[k] < |s.at|) && c < |s.at| && c' < |s.at|
    ensures var t := RunSchedule(s, schedule);
      && (t.at[c] == Critical && t.at[c'] == Critical ==> c == c')
      && t.at[c] != AlreadyHolding && t.at[c] != CannotRelease
  {
    InitInv(s);
    RunKeepsInv(s, schedule);
    assert Owns(Critical);
  }

  /** Only accesses of CPU `c` itself move it. */
  lemma {:induction false} OthersLeaveAlone(s: State, schedule: seq<nat>, c: nat)
    requires c < |s.at| && forall k | 0 <= k < |schedule| :: schedule[k] < |s.at| && schedule[k] != c
    ensures RunSchedule(s, schedule).at[c] == s.at[c]
    decreases schedule
  {
    if schedule != [] {
      OthersLeaveAlone(Next(s, schedule[0]), schedule[1..], c);
    }
  }

  /** holding() is exact: whatever the other CPUs do between its read of lk->locked and its read of lk->cpu, the
      answer is yes exactly when the caller is between spin_lock and the end of spin_unlock's check. */
  lemma HoldingIsExact(s: State, between: seq<nat>, c: nat)
    requires Inv(s) && c < |s.at| && forall k | 0 <= k < |between| :: between[k] < |s.at| && between[k] != c
    ensures s.locked && RunSchedule(s, between).cpu == Some(c) <==> Named(s.at[c])
  {
    RunKeepsInv(s, between);
    OthersLeaveAlone(s, between, c);
    assert Named(s.at[c]) ==> Owns(s.at[c]);
  }

  /** The CPU that owns the lock, if any: the abstract lock of the run protocol. */
  ghost function Holder(s: State): (h: Option<nat>)
    requires Inv(s)
    ensures h.Some? <==> s.locked
    ensures h.Some? ==> h.value < |s.at| && Owns(s.at[h.value])
  {
    if s.locked then
      var c :| 0 <= c < |s.at| && Owns(s.at[c]);
      Some(c)
    else None
  }

  /** The accesses refine an atomic lock: each one takes the free lock, gives back its own, or leaves the holder
      alone; the lock is taken exactly by the xchg that finds it free. */
  lemma RefinesAtomicLock(s: State, c: nat)
    requires Inv(s) && c < |s.at|
    ensures Inv(Next(s, c))
    ensures Holder(Next(s, c)) ==
      if s.at[c] == Spin && Holder(s) == None then Some(c)
      else if s.at[c] == Release then None
      else Holder(s)
    ensures s.at[c] == Release ==> Holder(s) == Some(c)
  {
    NextKeepsInv(s, c);
    var t := Next(s, c);
    if Owns(s.at[c]) {
      assert Holder(s) == Some(c);
      if s.at[c] != Release {
        assert Owns(t.at[c]);
      }
    } else if Owns(t.at[c]) {
      assert Holder(t) == Some(c);
    } else if s.locked {
      assert t.at[Holder(s).value] == s.at[Holder(s).value];
    }
  }

  /** Some CPU can always go on: wherever not all are outside, an access of one of those inside changes the state. */
  lemma NoDeadlock(s: State, c: nat) returns (c': nat)
    requires Inv(s) && c < |s.at| && s.at[c] != Outside
    ensures c' < |s.at| && s.at[c'] != Outside && Next(s, c') != s
  {
    c' := if s.at[c] == Spin && s.locked then Holder(s).value else c;
    assert Next(s, c').at[c'] != s.at[c'];
  }

  /** A CPU that finds the lock free and is left alone is in the critical section after four accesses; and in five more
      it has left everything as it was. */
  lemma LockAndUnlock(s: State, c: nat)
    requires Inv(s) && !s.locked && c < |s.at| && s.at[c] == Outside
    ensures RunSchedule(s, [c, c, c, c]).at == s.at[c := Critical]
    ensures RunSchedule(s.(locked := true, cpu := Some(c), at := s.at[c := Critical]), [c, c, c, c, c]) == s
  {
    FirstAccess(s, c, [c, c, c]);
    FirstAccess(Next(s, c), c, [c, c]);
    FirstAccess(Next(Next(s, c), c), c, [c]);
    FirstAccess(Next(Next(Next(s, c), c), c), c, []);
    var t := s.(locked := true, cpu := Some(c), at := s.at[c := Critical]);
    FirstAccess(t, c, [c, c, c, c]);
    FirstAccess(Next(t, c), c, [c, c, c]);
    FirstAccess(Next(Next(t, c), c), c, [c, c]);
    FirstAccess(Next(Next(Next(t, c), c), c), c, [c]);
    FirstAccess(Next(Next(Next(Next(t, c), c), c), c), c, []);
    assert s.cpu == None;
    assert Next(Next(Next(Next(Next(t, c), c), c), c), c).at == s.at;
  }

  lemma FirstAccess(s: State, c: nat, rest: seq<nat>)
    requires c < |s.at| && forall k | 0 <= k < |rest| :: rest[k] < |s.at|
    ensures RunSchedule(s, [c] + rest) == RunSchedule(Next(s, c), rest)
    ensures forall k | 0 <= k < |rest| :: ([c] + rest)[k + 1] == rest[k]
  {
    assert ([c] + rest)[1..] == rest;
  }

  /** struct spinlock, changed in place; `at` is where each CPU is in the code. */
  class Lock {
    var locked: bool
    var cpu: Option<nat>
    var at: seq<Point>

    ghost function S(): State
      reads this
    {
      State(locked, cpu, at)
    }

    /** __spin_initlock, with `ncpu` CPUs outside. */
    constructor (ncpu: nat)
      ensures Init(S()) && |at| == ncpu
    {
      locked, cpu, at := false, None, seq(ncpu, _ => Outside);
    }

    /** xchg(&lk->locked, v). */
    method Xchg(v: bool) returns (was: bool)
      modifies this`locked
      ensures was == old(locked) && locked == v
    {
      was := locked;
      locked := v;
    }

    /** The next access of CPU `c`. */
    method Access(c: nat)
      requires c < |at|
      modifies this
      ensures S() == Next(old(S()), c)
    {
      var next := at[c];
      match at[c] {
        case Outside => next := ReadLocked;
        case ReadLocked => next := if locked then ReadCpu else Spin;
        case ReadCpu => next := if cpu == Some(c) then AlreadyHolding else Spin;
        case Spin =>
          var was := Xchg(true);
          next := if was then Spin else SetCpu;
        case SetCpu =>
          cpu := Some(c);
          next := Critical;
        case Critical => next := RereadLocked;
        case RereadLocked => next := if !locked then CannotRelease else RereadCpu;
        case RereadCpu => next := if cpu != Some(c) then CannotRelease else ClearCpu;
        case ClearCpu =>
          cpu := None;
          next := Release;
        case Release =>
          var was := Xchg(false);
          next := Outside;
        case AlreadyHolding =>
        case CannotRelease =>
      }
      at := at[c := next];
    }
  }
}

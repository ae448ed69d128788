/** What holds over every run of ticks, semaphore and lock calls and thread creations. */
module SchedRuns {
  import opened Machine
  import opened Sequences
  import opened Wrappers
  import opened Sched
  import opened SchedInv

  /** The action finds its semaphore at 0, so the running thread will block. */
  predicate Blocks(s: Sys, a: Action)
    requires Shaped(s) && Possible(s, a)
  {
    match a
    case P(m) => s.sems[m].val == 0
    case Acquire(m) => s.holder[m] != Some(s.ring[0]) && s.sems[m].val == 0
    case Recheck => s.sems[s.threads[s.ring[0]].pc.sem].val == 0
    case _ => false
  }

  lemma CreateKeeps(s: Sys, t: Tid)
    requires Inv(s) && Possible(s, Create(t))
    ensures Inv(Step(s, Create(t)))
  {
    var r := Step(s, Create(t));
    assert RingOk(r) by { CreatedRing(s, t); }
    SameQueues(s, r);
    assert FlagsOk(r) by { CreatedFlags(s, t); }
    SameSems(s, r);
  }

  lemma CreatedFlags(s: Sys, t: Tid)
    requires FlagsOk(s) && Possible(s, Create(t))
    ensures FlagsOk(Step(s, Create(t)))
  {
    var r := Step(s, Create(t));
    forall u | u in r.threads ensures PcOk(r, u) { if u != t { assert PcOk(s, u); } }
  }

  lemma CreatedRing(s: Sys, t: Tid)
    requires RingOk(s) && Possible(s, Create(t))
    ensures RingOk(Step(s, Create(t)))
  {
    var r := Step(s, Create(t));
    var q := r.ring;
    assert t !in s.ring;
    forall i, j | 0 <= i < j < |q| ensures Differ(q, i, j) {
      if i == 1 {
        assert q[j] == s.ring[j - 1] && s.ring[j - 1] in s.ring;
      } else if j == 1 {
        assert q[0] == s.ring[0] && s.ring[0] in s.ring;
      } else {
        assert Differ(s.ring, if i == 0 then 0 else i - 1, j - 1);
      }
    }
    assert s.ring == [s.ring[0]] + s.ring[1..];
  }

  lemma NewSemKeeps(s: Sys, m: SemId, sem: Sem, lock: bool)
    requires Inv(s) && m !in s.sems && m !in s.holder && sem == Sem(sem.val, [], sem.val, 0, 0) && sem.val < WORD
    requires lock ==> sem.val == 1
    ensures Inv(s.(sems := s.sems[m := sem], holder := if lock then s.holder[m := None] else s.holder))
  {
    var r := s.(sems := s.sems[m := sem], holder := if lock then s.holder[m := None] else s.holder);
    assert QueuesOk(r) by { SameQueues(s, r); }
    forall u | u in r.threads ensures PcOk(r, u) { assert PcOk(s, u); }
    forall k | k in r.sems ensures SemOk(r, k) {
      if k in s.sems { assert SemOk(s, k) && Woken(r, k) == Woken(s, k); }
    }
    forall k | k in r.holder ensures LockOk(r, k) { if k in s.holder { assert LockOk(s, k); } }
  }

  /** A change of the interrupt flag alone is harmless while the running thread is outside sem_P. */
  lemma FlagKeeps(s: Sys, f: bool)
    requires Inv(s) && (s.threads[s.ring[0]].pc.InP? ==> !f)
    ensures Inv(s.(iflag := f))
  {
    var r := s.(iflag := f);
    SameQueues(s, r);
    forall u | u in r.threads ensures PcOk(r, u) { assert PcOk(s, u); }
    SameSems(s, r);
  }

  /** The state in which the step enters the loop of sem_P. */
  function Entering(s: Sys, a: Action): Sys
    requires Shaped(s) && Possible(s, a)
  {
    if a.Recheck? then s.(iflag := s.threads[s.ring[0]].pc.blockCond) else s.(iflag := false)
  }

  lemma EnterKeeps(s: Sys, a: Action)
    requires Inv(s) && Possible(s, a) && (a.P? || a.Recheck? || (a.Acquire? && s.holder[a.m] != Some(s.ring[0])))
    requires Blocks(s, a) ==> OtherReady(s)
    ensures Inv(Step(s, a))
  {
    var cur := s.ring[0];
    assert PcOk(s, cur);
    FlagKeeps(s, false);
    match a
    case P(m) => TryPKeeps(Entering(s, a), m, false, false, s.iflag, s.iflag);
    case Acquire(m) => TryPKeeps(Entering(s, a), m, true, s.iflag, false, s.iflag);
    case Recheck =>
      var pc := s.threads[cur].pc;
      TryPKeeps(Entering(s, a), pc.sem, pc.forLock, pc.lockCond, pc.pCond, pc.entry);
  }

  lemma ReleaseKeeps(s: Sys, m: SemId)
    requires Inv(s) && Possible(s, Release(m))
    ensures Inv(Step(s, Release(m)))
  {
    if s.holder[m] == Some(s.ring[0]) {
      var u := s.(holder := s.holder[m := None]);
      assert LockOk(s, m);
      SameQueues(s, u);
      forall t | t in u.threads ensures PcOk(u, t) { assert PcOk(s, t); }
      forall k | k in u.sems ensures SemOk(u, k) { assert SemOk(s, k) && Woken(u, k) == Woken(s, k); }
      forall k | k in u.holder && k != m ensures LockOk(u, k) { assert LockOk(s, k); }
      VKeeps(u, m);
    }
  }

  lemma StepKeepsInv(s: Sys, a: Action)
    requires Inv(s) && Possible(s, a) && (Blocks(s, a) ==> OtherReady(s))
    ensures Inv(Step(s, a))
  {
    match a
    case Tick => TickKeeps(s);
    case P(m) => EnterKeeps(s, a);
    case V(m) => VKeeps(s, m);
    case Acquire(m) => if s.holder[m] != Some(s.ring[0]) { EnterKeeps(s, a); }
    case Release(m) => ReleaseKeeps(s, m);
    case Recheck => EnterKeeps(s, a);
    case Create(t) => CreateKeeps(s, t);
    case SemInit(m, val) => NewSemKeeps(s, m, Sem(val, [], val, 0, 0), false);
    case LockInit(m) => NewSemKeeps(s, m, Sem(1, [], 1, 0, 0), true);
  }

  // ----- blocking with nobody else READY

  lemma {:induction false} ScanFails(s: Sys, d: nat)
    requires Shaped(s) && d <= |s.ring| && forall i :: d <= i < |s.ring| ==> s.threads[s.ring[i]].status != Ready
    ensures Scan(s.ring, s.threads, d) == |s.ring|
  {}

  /** The blocked thread is set RUNNING again with its node still on the queue. */
  lemma SelfWakeBreaks(s: Sys, m: SemId, forLock: bool, lockCond: bool, pCond: bool, entry: bool)
    requires AtP(s, m, forLock, lockCond, pCond, entry) && s.sems[m].val == 0 && !OtherReady(s)
    ensures var r := TryP(s, m, forLock, lockCond, pCond, entry);
            && r.ring == s.ring && s.ring[0] in r.sems[m].queue && r.threads[s.ring[0]].status == Running && r.threads[s.ring[0]].timeLeft == TIME_CONT
    ensures !Inv(TryP(s, m, forLock, lockCond, pCond, entry))
  {
    var u := Parked(s, m, forLock, lockCond, pCond, entry);
    forall i | 1 <= i < |s.ring| ensures u.threads[u.ring[i]].status != Ready {
      assert Differ(s.ring, 0, i);
      assert s.ring[i] in s.threads;
    }
    ScanFails(u, 1);
    var r := TryP(s, m, forLock, lockCond, pCond, entry);
    var q := r.sems[m].queue;
    assert q[|q| - 1] == s.ring[0];
    assert !WaitsFor(r, s.ring[0], m);
  }

  /** For instance, the main thread alone, waiting on a new semaphore of value 0, is RUNNING
      again at once, and queued. */
  lemma SelfWakeExample(main: Tid, iflag: bool, m: SemId)
    ensures var s := Step(Boot(main, iflag), SemInit(m, 0));
            && Possible(s, P(m)) && Blocks(s, P(m)) && !OtherReady(s)
            && var r := Step(s, P(m)); r.threads[main].status == Running && r.sems[m].queue == [main] && !Inv(r)
  {
    var s := Step(Boot(main, iflag), SemInit(m, 0));
    BootInv(main, iflag);
    StepKeepsInv(Boot(main, iflag), SemInit(m, 0));
    FlagKeeps(s, false);
    SelfWakeBreaks(Entering(s, P(m)), m, false, false, iflag, iflag);
    QueuesAreFifo(s, P(m), m);
  }

  /** A step keeps the invariant exactly when it does not block the last thread that could run. */
  lemma StepKeepsInvIff(s: Sys, a: Action)
    requires Inv(s) && Possible(s, a)
    ensures Inv(Step(s, a)) <==> (Blocks(s, a) ==> OtherReady(s))
  {
    if Blocks(s, a) && !OtherReady(s) {
      var cur := s.ring[0];
      assert PcOk(s, cur);
      FlagKeeps(s, false);
      match a
      case P(m) => SelfWakeBreaks(Entering(s, a), m, false, false, s.iflag, s.iflag);
      case Acquire(m) => SelfWakeBreaks(Entering(s, a), m, true, s.iflag, false, s.iflag);
      case Recheck =>
        var pc := s.threads[cur].pc;
        SelfWakeBreaks(Entering(s, a), pc.sem, pc.forLock, pc.lockCond, pc.pCond, pc.entry);
    } else {
      StepKeepsInv(s, a);
    }
  }

  // ----- runs

  ghost predicate IsRun(trace: seq<Sys>, acts: seq<Action>) {
    && |trace| == |acts| + 1
    && forall i :: 0 <= i < |acts| ==> Follows(trace[i], acts[i], trace[i + 1])
  }

  ghost predicate Follows(s: Sys, a: Action, r: Sys) {
    Shaped(s) && Possible(s, a) && (Blocks(s, a) ==> OtherReady(s)) && r == Step(s, a)
  }

  lemma {:induction false} RunKeepsInv(trace: seq<Sys>, acts: seq<Action>, i: nat)
    requires IsRun(trace, acts) && Inv(trace[0]) && i < |trace|
    ensures Inv(trace[i])
  {
    if i > 0 {
      RunKeepsInv(trace, acts, i - 1);
      assert Follows(trace[i - 1], acts[i - 1], trace[i]);
      StepKeepsInv(trace[i - 1], acts[i - 1]);
    }
  }

  lemma BootInv(main: Tid, iflag: bool)
    ensures Inv(Boot(main, iflag))
  {}

  /** At every step of every run from start-up: one cycle through main and the running
      thread; exactly that thread RUNNING; every BLOCKED thread on exactly one wait queue,
      once, and nobody else queued. */
  lemma RunInvariant(main: Tid, iflag: bool, trace: seq<Sys>, acts: seq<Action>, i: nat)
    requires IsRun(trace, acts) && trace[0] == Boot(main, iflag) && i < |trace|
    ensures var s := trace[i];
            && Inv(s) && Distinct(s.ring) && s.main in s.ring
            && (forall t :: t in s.threads <==> t in s.ring)
            && (forall t :: t in s.threads ==> (s.threads[t].status == Running <==> t == s.ring[0]))
            && (forall m :: m in s.sems ==> Distinct(s.sems[m].queue))
            && (forall t, m :: t in s.threads && m in s.sems ==>
                  (t in s.sems[m].queue <==> s.threads[t].status == Blocked && s.threads[t].pc.InP? && s.threads[t].pc.sem == m))
            && (forall t :: t in s.threads && s.threads[t].status == Blocked ==> s.threads[t].pc.InP? && s.threads[t].pc.sem in s.sems)
  {
    BootInv(main, iflag);
    RunKeepsInv(trace, acts, i);
    QueuedIff(trace[i]);
  }

  lemma QueuedIff(s: Sys)
    requires Inv(s)
    ensures forall t, m :: t in s.threads && m in s.sems ==>
              (t in s.sems[m].queue <==> s.threads[t].status == Blocked && s.threads[t].pc.InP? && s.threads[t].pc.sem == m)
    ensures forall t :: t in s.threads && s.threads[t].status == Blocked ==> s.threads[t].pc.InP? && s.threads[t].pc.sem in s.sems
  {
    forall t, m | t in s.threads && m in s.sems
      ensures t in s.sems[m].queue <==> s.threads[t].status == Blocked && s.threads[t].pc.InP? && s.threads[t].pc.sem == m
    {
      if t in s.sems[m].queue { assert WaitsFor(s, t, m); }
      if s.threads[t].status == Blocked { assert Queued(s, t); }
    }
    forall t | t in s.threads && s.threads[t].status == Blocked ensures s.threads[t].pc.InP? && s.threads[t].pc.sem in s.sems {
      assert Queued(s, t);
    }
  }

  /** The node a thread brings to sync_tool_add is never linked already. */
  lemma NeverRequeued(s: Sys, a: Action, m: SemId)
    requires Inv(s) && Possible(s, a) && m in s.sems
    ensures s.ring[0] !in s.sems[m].queue
  {}

  /** No lost wake-up: the completed P's never outrun the initial value and the completed V's;
      a semaphore's value is the difference, exactly while that fits 32 bits and modulo 2^32
      afterwards; and whenever threads queue on it, a positive value is
      already spoken for: as many threads have been woken and not yet re-checked. */
  lemma NoLostWakeup(main: Tid, iflag: bool, trace: seq<Sys>, acts: seq<Action>, i: nat, m: SemId)
    requires IsRun(trace, acts) && trace[0] == Boot(main, iflag) && i < |trace| && m in trace[i].sems
    ensures var s, sem := trace[i], trace[i].sems[m];
            && sem.ps <= sem.initial + sem.vs
            && sem.val == (sem.initial + sem.vs - sem.ps) % WORD
            && (sem.initial + sem.vs - sem.ps < WORD ==> sem.val == sem.initial + sem.vs - sem.ps)
            && (sem.queue != [] ==> sem.val <= |Woken(s, m)|)
            && (sem.queue != [] && sem.val > 0 ==>
                  exists t :: t in s.threads && s.threads[t].status != Blocked && s.threads[t].pc.InP? && s.threads[t].pc.sem == m)
  {
    BootInv(main, iflag);
    RunKeepsInv(trace, acts, i);
    var s := trace[i];
    assert SemOk(s, m);
    if s.sems[m].queue != [] && s.sems[m].val > 0 {
      var t :| t in Woken(s, m);
    }
  }

  /** The action runs into the queue of m when it blocks. */
  predicate WaitsOn(s: Sys, a: Action, m: SemId)
    requires Shaped(s) && Possible(s, a)
  {
    match a
    case P(k) => k == m
    case Acquire(k) => k == m
    case Recheck => s.threads[s.ring[0]].pc.sem == m
    case _ => false
  }

  predicate Wakes(s: Sys, a: Action, m: SemId)
    requires Shaped(s) && Possible(s, a)
  {
    a == V(m) || (a == Release(m) && s.holder[m] == Some(s.ring[0]))
  }

  /** Every wait queue is first in, first out: a step appends the running thread exactly when
      it blocks there, takes the head off exactly when it wakes a waiter, and otherwise leaves
      the queue alone. */
  lemma QueuesAreFifo(s: Sys, a: Action, m: SemId)
    requires Inv(s) && Possible(s, a) && m in s.sems
    ensures m in Step(s, a).sems && Step(s, a).sems[m].queue == QueueAfter(s, a, m)
  {
    if s.sems[m].queue != [] { VHead(s, m); }
    StepQueue(s, a, m);
  }

  function QueueAfter(s: Sys, a: Action, m: SemId): seq<Tid>
    requires Shaped(s) && Possible(s, a) && m in s.sems
  {
    var q := s.sems[m].queue;
    if Blocks(s, a) && WaitsOn(s, a, m) then q + [s.ring[0]]
    else if Wakes(s, a, m) && q != [] then q[1..]
    else q
  }

  lemma StepQueue(s: Sys, a: Action, m: SemId)
    requires Shaped(s) && Possible(s, a) && m in s.sems && (s.sems[m].queue != [] ==> s.sems[m].queue[0] in s.threads)
    ensures m in Step(s, a).sems && Step(s, a).sems[m].queue == QueueAfter(s, a, m)
  {
    if a.P? || a.Acquire? || a.Recheck? {
      EnterQueue(s, a, m);
    } else if a.V? {
      VQueue(s, a.m, m);
    } else if a.Release? {
      VQueue(s.(holder := s.holder[a.m := None]), a.m, m);
    }
  }

  lemma EnterQueue(s: Sys, a: Action, m: SemId)
    requires Shaped(s) && Possible(s, a) && m in s.sems && (a.P? || a.Acquire? || a.Recheck?)
    ensures m in Step(s, a).sems && Step(s, a).sems[m].queue == QueueAfter(s, a, m)
  {
    match a
    case P(k) => TryPQueue(Entering(s, a), k, m, false, false, s.iflag, s.iflag);
    case Acquire(k) => if s.holder[k] != Some(s.ring[0]) { TryPQueue(Entering(s, a), k, m, true, s.iflag, false, s.iflag); }
    case Recheck =>
      var pc := s.threads[s.ring[0]].pc;
      TryPQueue(Entering(s, a), pc.sem, m, pc.forLock, pc.lockCond, pc.pCond, pc.entry);
  }

  lemma TryPQueue(s: Sys, m: SemId, k: SemId, forLock: bool, lockCond: bool, pCond: bool, entry: bool)
    requires Shaped(s) && m in s.sems && k in s.sems && (forLock ==> m in s.holder)
    ensures var r := TryP(s, m, forLock, lockCond, pCond, entry);
            k in r.sems && r.sems[k].queue == if k == m && s.sems[m].val == 0 then s.sems[k].queue + [s.ring[0]] else s.sems[k].queue
  {}

  lemma VQueue(s: Sys, m: SemId, k: SemId)
    requires Shaped(s) && m in s.sems && k in s.sems && (s.sems[k].queue != [] ==> s.sems[k].queue[0] in s.threads)
    ensures var r := DoV(s, m);
            k in r.sems && r.sems[k].queue == if k == m && s.sems[k].queue != [] then s.sems[k].queue[1..] else s.sems[k].queue
  {}

  // ----- locks

  /** The running thread gets through sem_P for the lock m. */
  predicate TakesLock(s: Sys, a: Action, m: SemId)
    requires Shaped(s) && Possible(s, a)
  {
    !Blocks(s, a) &&
    match a
    case Acquire(k) => k == m && s.holder[k] != Some(s.ring[0])
    case Recheck => s.threads[s.ring[0]].pc.forLock && s.threads[s.ring[0]].pc.sem == m
    case _ => false
  }

  function HolderAfter(s: Sys, a: Action, m: SemId): Option<Tid>
    requires Shaped(s) && Possible(s, a) && m in s.holder
  {
    if TakesLock(s, a, m) then Some(s.ring[0])
    else if a == Release(m) && s.holder[m] == Some(s.ring[0]) then None
    else s.holder[m]
  }

  lemma StepHolder(s: Sys, a: Action, m: SemId)
    requires Shaped(s) && Possible(s, a) && m in s.holder
    ensures m in Step(s, a).holder && Step(s, a).holder[m] == HolderAfter(s, a, m)
  {
    match a
    case P(k) => TryPHolder(Entering(s, a), k, false, false, s.iflag, s.iflag);
    case Acquire(k) => if s.holder[k] != Some(s.ring[0]) { TryPHolder(Entering(s, a), k, true, s.iflag, false, s.iflag); }
    case Recheck =>
      var pc := s.threads[s.ring[0]].pc;
      TryPHolder(Entering(s, a), pc.sem, pc.forLock, pc.lockCond, pc.pCond, pc.entry);
    case _ =>
  }

  lemma TryPHolder(s: Sys, m: SemId, forLock: bool, lockCond: bool, pCond: bool, entry: bool)
    requires Shaped(s) && m in s.sems && (forLock ==> m in s.holder)
    ensures TryP(s, m, forLock, lockCond, pCond, entry).holder
            == if forLock && s.sems[m].val > 0 then s.holder[m := Some(s.ring[0])] else s.holder
  {}

  /** A lock leaves its holder's hands only when the holder itself releases it. */
  lemma OnlyHolderReleases(s: Sys, a: Action, m: SemId, h: Tid)
    requires Inv(s) && Possible(s, a) && m in s.holder && s.holder[m] == Some(h)
    ensures m in Step(s, a).holder
    ensures Step(s, a).holder[m] == Some(h) <==> !(a == Release(m) && h == s.ring[0])
  {
    assert LockOk(s, m);
    StepHolder(s, a, m);
  }

  /** Whoever gets a free lock is the running thread, and it takes the semaphore from 1 to 0. */
  lemma LockIsTaken(s: Sys, a: Action, m: SemId, h: Tid)
    requires Inv(s) && Possible(s, a) && m in s.holder && s.holder[m] == None
    requires m in Step(s, a).holder && Step(s, a).holder[m] == Some(h)
    ensures h == s.ring[0] && s.sems[m].val == 1
    ensures m in Step(s, a).sems && Step(s, a).sems[m].val == 0
  {
    assert LockOk(s, m);
    StepHolder(s, a, m);
    TakingCounts(s, a, m);
  }

  lemma TakingCounts(s: Sys, a: Action, m: SemId)
    requires Shaped(s) && Possible(s, a) && m in s.holder && m in s.sems && TakesLock(s, a, m)
    ensures s.sems[m].val > 0 && m in Step(s, a).sems && Step(s, a).sems[m].val == s.sems[m].val - 1
  {}

  /** At every preemption point of every run the semaphore of a lock is 1 if the holder is
      NULL and 0 otherwise. */
  lemma LockValue(main: Tid, iflag: bool, trace: seq<Sys>, acts: seq<Action>, i: nat, m: SemId)
    requires IsRun(trace, acts) && trace[0] == Boot(main, iflag) && i < |trace| && m in trace[i].holder
    ensures m in trace[i].sems && trace[i].sems[m].val == if trace[i].holder[m] == None then 1 else 0
  {
    BootInv(main, iflag);
    RunKeepsInv(trace, acts, i);
    assert LockOk(trace[i], m);
  }

  /** Mutual exclusion over runs: when a lock that h holds is no longer h's, h itself has
      released it in between. */
  lemma {:induction false} HolderChangesThroughRelease(trace: seq<Sys>, acts: seq<Action>, i: nat, j: nat, m: SemId, h: Tid)
    requires IsRun(trace, acts) && Inv(trace[0]) && i <= j < |trace|
    requires m in trace[i].holder && trace[i].holder[m] == Some(h)
    ensures m in trace[j].holder
    ensures trace[j].holder[m] != Some(h) ==> exists k :: i <= k < j && ReleasedAt(trace[k], acts[k], m, h)
    decreases j
  {
    if i < j {
      HolderChangesThroughRelease(trace, acts, i, j - 1, m, h);
      LockAtStep(trace, acts, j - 1, m, h);
    }
  }

  lemma LockAtStep(trace: seq<Sys>, acts: seq<Action>, k: nat, m: SemId, h: Tid)
    requires IsRun(trace, acts) && Inv(trace[0]) && k < |acts| && m in trace[k].holder
    ensures m in trace[k + 1].holder
    ensures trace[k].holder[m] == Some(h) && trace[k + 1].holder[m] != Some(h) ==> ReleasedAt(trace[k], acts[k], m, h)
  {
    RunKeepsInv(trace, acts, k);
    assert Follows(trace[k], acts[k], trace[k + 1]);
    StepHolder(trace[k], acts[k], m);
    if trace[k].holder[m] == Some(h) { OnlyHolderReleases(trace[k], acts[k], m, h); }
  }

  predicate ReleasedAt(s: Sys, a: Action, m: SemId, h: Tid) { a == Release(m) && s.ring != [] && s.ring[0] == h }

  // ----- the interrupt flag

  /** The flag the outermost call found: the current one for a call just made, the recorded
      one for a call resumed inside sem_P. */
  function EntryFlag(s: Sys, a: Action): bool
    requires Shaped(s) && Possible(s, a)
  {
    if a.Recheck? then s.threads[s.ring[0]].pc.entry else s.iflag
  }

  /** A step that returns from a call sets the interrupt flag the call found; a step that
      blocks keeps that flag on record. */
  lemma CallRestoresFlag(s: Sys, a: Action)
    requires Inv(s) && Possible(s, a) && (a.P? || a.V? || a.Acquire? || a.Release? || a.Recheck?)
    requires Blocks(s, a) ==> OtherReady(s)
    ensures !Blocks(s, a) ==> Step(s, a).iflag == EntryFlag(s, a) && Step(s, a).threads[s.ring[0]].pc == Outside
    ensures Blocks(s, a) ==> var pc := Step(s, a).threads[s.ring[0]].pc; pc.InP? && pc.entry == EntryFlag(s, a)
  {
    assert PcOk(s, s.ring[0]);
    if Blocks(s, a) {
      var u := Step(s, a);
      BlockedPc(s, a);
    } else if a.V? || a.Release? {
      var m := a.m;
      if s.sems[m].queue != [] { assert s.sems[m].queue[0] in s.sems[m].queue && WaitsFor(s, s.sems[m].queue[0], m); }
    }
  }

  lemma BlockedPc(s: Sys, a: Action)
    requires Inv(s) && Possible(s, a) && Blocks(s, a) && OtherReady(s)
    ensures Step(s, a).threads[s.ring[0]].pc.InP? && Step(s, a).threads[s.ring[0]].pc.entry == EntryFlag(s, a)
  {
    assert PcOk(s, s.ring[0]);
    FlagKeeps(s, false);
    var e := Entering(s, a);
    match a
    case P(m) =>
      ParkedMaySchedule(e, m, false, false, s.iflag, s.iflag);
      KeepsPc(Parked(e, m, false, false, s.iflag, s.iflag));
    case Acquire(m) =>
      ParkedMaySchedule(e, m, true, s.iflag, false, s.iflag);
      KeepsPc(Parked(e, m, true, s.iflag, false, s.iflag));
    case Recheck =>
      var pc := s.threads[s.ring[0]].pc;
      ParkedMaySchedule(e, pc.sem, pc.forLock, pc.lockCond, pc.pCond, pc.entry);
      KeepsPc(Parked(e, pc.sem, pc.forLock, pc.lockCond, pc.pCond, pc.entry));
  }

  lemma KeepsPc(s: Sys)
    requires MaySchedule(s, false)
    ensures s.ring[0] in Schedule(s, false).threads && Schedule(s, false).threads[s.ring[0]].pc == s.threads[s.ring[0]].pc
  {
    ScheduleThreads(s, false);
    assert SameStanding(s.threads[s.ring[0]], Schedule(s, false).threads[s.ring[0]]);
  }

  lemma SwitchPc(s: Sys, d: nat, resume: bool, t: Tid)
    requires Shaped(s) && d < |s.ring| && t in s.threads
    ensures t in SwitchTo(s, d, resume).threads && SwitchTo(s, d, resume).threads[t].pc == s.threads[t].pc
  {}

  lemma SchedulePc(s: Sys, resume: bool, t: Tid)
    requires Shaped(s) && t in s.threads
    ensures t in Schedule(s, resume).threads && Schedule(s, resume).threads[t].pc == s.threads[t].pc
  {
    var d := Scan(s.ring, s.threads, 1);
    if d < |s.ring| { SwitchPc(s, d, resume, t); }
  }

  lemma TryPPc(s: Sys, m: SemId, forLock: bool, lockCond: bool, pCond: bool, entry: bool, t: Tid)
    requires Shaped(s) && m in s.sems && (forLock ==> m in s.holder) && t in s.threads && t != s.ring[0]
    ensures var r := TryP(s, m, forLock, lockCond, pCond, entry); t in r.threads && r.threads[t].pc == s.threads[t].pc
  {
    if s.sems[m].val == 0 { SchedulePc(Parked(s, m, forLock, lockCond, pCond, entry), false, t); }
  }

  lemma VPc(s: Sys, m: SemId, t: Tid)
    requires Shaped(s) && m in s.sems && t in s.threads
    ensures t in DoV(s, m).threads && DoV(s, m).threads[t].pc == s.threads[t].pc
  {}

  /** Nobody else's steps touch where a thread stands. */
  lemma OthersKeepPc(s: Sys, a: Action, t: Tid)
    requires Shaped(s) && Possible(s, a) && t in s.threads && t != s.ring[0]
    ensures t in Step(s, a).threads && Step(s, a).threads[t].pc == s.threads[t].pc
  {
    match a
    case Tick => SchedulePc(s, true, t);
    case P(k) => TryPPc(Entering(s, a), k, false, false, s.iflag, s.iflag, t);
    case V(k) => VPc(s, k, t);
    case Acquire(k) => if s.holder[k] != Some(s.ring[0]) { TryPPc(Entering(s, a), k, true, s.iflag, false, s.iflag, t); }
    case Release(k) => VPc(s.(holder := s.holder[k := None]), k, t);
    case Recheck =>
      var pc := s.threads[s.ring[0]].pc;
      TryPPc(Entering(s, a), pc.sem, pc.forLock, pc.lockCond, pc.pCond, pc.entry, t);
    case _ =>
  }

  predicate IsCall(a: Action) { a.P? || a.V? || a.Acquire? || a.Release? }

  predicate Inside(s: Sys, t: Tid) { t in s.threads && s.threads[t].pc.InP? }

  /** t is inside sem_P, in a call that found the interrupt flag at f. */
  predicate Recorded(s: Sys, t: Tid, f: bool) { Inside(s, t) && s.threads[t].pc.entry == f }

  /** A running thread inside sem_P goes on there, and the flag its call found stays on record
      until it returns. */
  lemma InsideStep(s: Sys, a: Action, t: Tid, f: bool)
    requires Inv(s) && Possible(s, a) && (Blocks(s, a) ==> OtherReady(s)) && Recorded(s, t, f)
    ensures if Inside(Step(s, a), t) then Recorded(Step(s, a), t, f) else t == s.ring[0] && Step(s, a).iflag == f
  {
    if t == s.ring[0] {
      assert a.Recheck?;
      CallRestoresFlag(s, a);
    } else {
      OthersKeepPc(s, a, t);
    }
  }

  lemma InsideNext(trace: seq<Sys>, acts: seq<Action>, k: nat, t: Tid, f: bool)
    requires IsRun(trace, acts) && Inv(trace[0]) && k < |acts| && Recorded(trace[k], t, f)
    ensures Shaped(trace[k])
    ensures if Inside(trace[k + 1], t) then Recorded(trace[k + 1], t, f) else t == trace[k].ring[0] && trace[k + 1].iflag == f
  {
    RunKeepsInv(trace, acts, k);
    assert Follows(trace[k], acts[k], trace[k + 1]);
    InsideStep(trace[k], acts[k], t, f);
  }

  lemma {:induction false} EntryOnRecord(trace: seq<Sys>, acts: seq<Action>, i: nat, k: nat, t: Tid, f: bool)
    requires IsRun(trace, acts) && Inv(trace[0]) && i <= k < |trace| && Recorded(trace[i], t, f)
    requires forall n :: i <= n <= k ==> Inside(trace[n], t)
    ensures Recorded(trace[k], t, f)
  {
    if k > i {
      EntryOnRecord(trace, acts, i, k - 1, t, f);
      InsideNext(trace, acts, k - 1, t, f);
    }
  }

  /** Every call returns with the interrupt flag it found, however often it waits in between:
      t calls at i, is inside sem_P from then on, and leaves it with the step at j. */
  lemma FlagOnReturn(trace: seq<Sys>, acts: seq<Action>, i: nat, j: nat, t: Tid)
    requires IsRun(trace, acts) && Inv(trace[0]) && i <= j < |acts|
    requires Shaped(trace[i]) && trace[i].ring[0] == t && trace[i].threads[t].pc == Outside && IsCall(acts[i])
    requires forall n :: i < n <= j ==> Inside(trace[n], t)
    requires !Inside(trace[j + 1], t)
    ensures Shaped(trace[j]) && trace[j].ring[0] == t && trace[j + 1].iflag == trace[i].iflag
  {
    RunKeepsInv(trace, acts, i);
    assert Follows(trace[i], acts[i], trace[i + 1]);
    CallRestoresFlag(trace[i], acts[i]);
    if i < j {
      assert Inside(trace[i + 1], t);
      EntryOnRecord(trace, acts, i + 1, j, t, trace[i].iflag);
      InsideNext(trace, acts, j, t, trace[i].iflag);
    }
  }

  // ----- bounded waiting

  /** How far round the ring a thread is from the running one. */
  function Pos(ring: seq<Tid>, t: Tid): (i: nat)
    requires t in ring
    ensures i < |ring| && ring[i] == t
  {
    if ring[0] == t then 0 else 1 + Pos(ring[1..], t)
  }

  lemma PosUnique(ring: seq<Tid>, t: Tid, i: nat)
    requires Distinct(ring) && i < |ring| && ring[i] == t
    ensures Pos(ring, t) == i
  {
    var j := Pos(ring, t);
    if i < j { OnlyOnce(ring, i, j); } else if j < i { OnlyOnce(ring, j, i); }
  }

  lemma OnlyOnce(ring: seq<Tid>, i: nat, j: nat)
    requires Distinct(ring) && i < j < |ring|
    ensures ring[i] != ring[j]
  {
    assert Differ(ring, i, j);
  }

  /** At most this many ticks until a READY thread is dispatched: a whole time slice for
      each thread between, and what is left of the current one. */
  function TicksAhead(s: Sys, t: Tid): int
    requires Shaped(s) && t in s.ring
  {
    (Pos(s.ring, t) - 1) * (TIME_CONT + 1) + s.threads[s.ring[0]].timeLeft + 1
  }

  function IsTick(a: Action): nat { if a.Tick? then 1 else 0 }

  function Ticks(acts: seq<Action>): nat { if acts == [] then 0 else Ticks(acts[..|acts| - 1]) + IsTick(acts[|acts| - 1]) }

  predicate Waiting(s: Sys, t: Tid) { t in s.threads && s.threads[t].status == Ready }

  lemma RotatedPos(ring: seq<Tid>, d: nat, t: Tid)
    requires Distinct(ring) && t in ring && d <= Pos(ring, t)
    ensures var r := ring[d..] + ring[..d]; t in r && Pos(r, t) == Pos(ring, t) - d
  {
    var r, i := ring[d..] + ring[..d], Pos(ring, t);
    assert r[i - d] == t;
    Rotated(ring, d);
    PosUnique(r, t, i - d);
  }

  lemma SwitchAdvances(s: Sys, d: nat, resume: bool, t: Tid)
    requires AtSchedule(s) && 1 <= d < |s.ring| && t in s.ring && d <= Pos(s.ring, t)
    requires t in SwitchTo(s, d, resume).threads && SwitchTo(s, d, resume).threads[t].status == Ready
    ensures var r := SwitchTo(s, d, resume);
            && t in r.ring && Shaped(r) && r.threads[r.ring[0]].timeLeft == TIME_CONT
            && Pos(r.ring, t) <= Pos(s.ring, t) - 1
  {
    SwitchRing(s, d, resume);
    RotatedPos(s.ring, d, t);
    Switched(s, d, resume);
  }

  /** Handing over shortens the ring distance of every thread that stays READY. */
  lemma DispatchAdvances(s: Sys, resume: bool, t: Tid)
    requires AtSchedule(s) && t in s.ring && Waiting(s, t) && Waiting(Schedule(s, resume), t)
    ensures t in Schedule(s, resume).ring && Shaped(Schedule(s, resume))
    ensures TicksAhead(Schedule(s, resume), t) <= (Pos(s.ring, t) - 1) * (TIME_CONT + 1)
  {
    var d, i := Scan(s.ring, s.threads, 1), Pos(s.ring, t);
    assert i > 0;
    ScanFinds(s, 1, i);
    SwitchAdvances(s, d, resume, t);
  }

  /** No step takes a READY thread further from its dispatch, and every tick brings it closer. */
  lemma StepAdvances(s: Sys, a: Action, t: Tid)
    requires Inv(s) && Possible(s, a) && (Blocks(s, a) ==> OtherReady(s)) && !a.Create?
    requires Waiting(s, t) && Waiting(Step(s, a), t)
    ensures Inv(Step(s, a)) && TicksAhead(Step(s, a), t) + IsTick(a) <= TicksAhead(s, t)
  {
    StepKeepsInv(s, a);
    var r := Step(s, a);
    if a.Tick? && s.threads[s.ring[0]].timeLeft == 0 {
      DispatchAdvances(s, true, t);
    } else if Blocks(s, a) {
      BlockAdvances(s, a, t);
    } else {
      SameTurn(s, a);
    }
  }

  /** A step that neither ends the time slice nor blocks keeps the ring as it is. */
  lemma SameTurn(s: Sys, a: Action)
    requires Shaped(s) && Possible(s, a) && !Blocks(s, a) && !a.Create?
    requires a.Tick? ==> s.threads[s.ring[0]].timeLeft != 0
    ensures Step(s, a).ring == s.ring && s.ring[0] in Step(s, a).threads
    ensures Step(s, a).threads[s.ring[0]].timeLeft + IsTick(a) == s.threads[s.ring[0]].timeLeft
  {}

  lemma BlockAdvances(s: Sys, a: Action, t: Tid)
    requires Inv(s) && Possible(s, a) && Blocks(s, a) && OtherReady(s)
    requires Waiting(s, t) && Waiting(Step(s, a), t)
    ensures t in Step(s, a).ring && Shaped(Step(s, a)) && TicksAhead(Step(s, a), t) <= TicksAhead(s, t)
  {
    assert PcOk(s, s.ring[0]);
    FlagKeeps(s, false);
    var e := Entering(s, a);
    match a
    case P(m) => ParkAdvances(e, m, false, false, s.iflag, s.iflag, t);
    case Acquire(m) => ParkAdvances(e, m, true, s.iflag, false, s.iflag, t);
    case Recheck =>
      var pc := s.threads[s.ring[0]].pc;
      ParkAdvances(e, pc.sem, pc.forLock, pc.lockCond, pc.pCond, pc.entry, t);
  }

  lemma ParkAdvances(s: Sys, m: SemId, forLock: bool, lockCond: bool, pCond: bool, entry: bool, t: Tid)
    requires AtP(s, m, forLock, lockCond, pCond, entry) && s.sems[m].val == 0 && OtherReady(s)
    requires Waiting(s, t) && Waiting(TryP(s, m, forLock, lockCond, pCond, entry), t)
    ensures var r := TryP(s, m, forLock, lockCond, pCond, entry);
            t in r.ring && Shaped(r) && t in s.ring && TicksAhead(r, t) <= TicksAhead(s, t)
  {
    ParkedMaySchedule(s, m, forLock, lockCond, pCond, entry);
    DispatchAdvances(Parked(s, m, forLock, lockCond, pCond, entry), false, t);
  }

  lemma TicksNext(acts: seq<Action>, k: nat)
    requires k < |acts|
    ensures Ticks(acts[..k + 1]) == Ticks(acts[..k]) + IsTick(acts[k])
  {
    assert acts[..k + 1][..k] == acts[..k];
  }

  lemma RunStepAdvances(trace: seq<Sys>, acts: seq<Action>, t: Tid, k: nat)
    requires IsRun(trace, acts) && k < |acts| && Inv(trace[k]) && WaitsThrough(trace, acts, t)
    ensures t in trace[k].ring && Shaped(trace[k + 1]) && t in trace[k + 1].ring
    ensures Inv(trace[k + 1]) && TicksAhead(trace[k + 1], t) + IsTick(acts[k]) <= TicksAhead(trace[k], t)
  {
    assert Follows(trace[k], acts[k], trace[k + 1]);
    assert Waiting(trace[k], t) && Waiting(trace[k + 1], t);
    StepAdvances(trace[k], acts[k], t);
  }

  /** t is READY throughout the run, and no thread is created. */
  ghost predicate WaitsThrough(trace: seq<Sys>, acts: seq<Action>, t: Tid) {
    && (forall i :: 0 <= i < |acts| ==> !acts[i].Create?)
    && (forall i :: 0 <= i < |trace| ==> Waiting(trace[i], t))
  }

  lemma {:induction false} RunAdvances(trace: seq<Sys>, acts: seq<Action>, t: Tid, k: nat)
    requires IsRun(trace, acts) && Inv(trace[0]) && k <= |acts| && WaitsThrough(trace, acts, t)
    ensures Inv(trace[k]) && t in trace[k].ring && t in trace[0].ring
    ensures Ticks(acts[..k]) + TicksAhead(trace[k], t) <= TicksAhead(trace[0], t)
  {
    assert Waiting(trace[k], t) && Waiting(trace[0], t);
    if k == 0 {
      assert acts[..0] == [];
    } else {
      RunAdvances(trace, acts, t, k - 1);
      RunStepAdvances(trace, acts, t, k - 1);
      TicksNext(acts, k - 1);
    }
  }

  /** Bounded waiting: with n threads on the ring and none created, a thread cannot stay
      READY through (n - 1) * (TIME_CONT + 1) ticks, whatever blocks and wake-ups go on. */
  lemma BoundedWaiting(trace: seq<Sys>, acts: seq<Action>, t: Tid)
    requires IsRun(trace, acts) && Inv(trace[0])
    requires WaitsThrough(trace, acts, t)
    ensures Ticks(acts) < (|trace[0].ring| - 1) * (TIME_CONT + 1)
  {
    RunAdvances(trace, acts, t, |acts|);
    assert acts[..|acts|] == acts;
    var s := trace[|acts|];
    assert Waiting(s, t) && Waiting(trace[0], t);
    if Pos(s.ring, t) == 0 { assert s.threads[s.ring[0]].status == Running; }
  }
}

/** The scheduler, semaphores and locks as a machine over atomic steps. Between
    cli_condition and sti_condition nothing interleaves except at schedule(), so a step runs
    from one such point to the next: a timer tick, a call that does not block or runs into
    thread_block, or a woken thread re-checking the loop of sem_P. */
module Sched {
  import opened Machine
  import opened Sequences
  import opened Wrappers

  const TIME_CONT: nat := 10

  type Tid = nat       // address of a TCB
  type SemId = nat     // address of a semaphore

  datatype Status = Running | Ready | Blocked

  /** Where a thread stands. Inside sem_P it has saved the interrupt conditions of the calls
      it is nested in: lock_acquire, sem_P and thread_block; `entry` is the flag its
      outermost call found. */
  datatype Pc =
    | Outside
    | InP(sem: SemId, forLock: bool, lockCond: bool, pCond: bool, blockCond: bool, entry: bool)

  /** `saved` is the interrupt flag the thread runs with when it is next dispatched. */
  datatype Thread = Thread(status: Status, timeLeft: nat, timeCounter: nat, pc: Pc, saved: bool)

  /** `initial`, `ps` and `vs` record the initial value and the completed P and V calls. */
  datatype Sem = Sem(val: nat, queue: seq<Tid>, initial: nat, ps: nat, vs: nat)

  datatype Sys = Sys(
    main: Tid,
    ring: seq<Tid>,                        // the TCB ring, starting with the running thread
    threads: map<Tid, Thread>,
    sems: map<SemId, Sem>,
    holder: map<SemId, Option<Tid>>,       // the semaphores that belong to locks, and who holds them
    iflag: bool)                           // interrupts enabled

  datatype Action =
    | Tick
    | P(m: SemId)
    | V(m: SemId)
    | Acquire(m: SemId)
    | Release(m: SemId)
    | Recheck
    | Create(t: Tid)
    | SemInit(m: SemId, val: nat)
    | LockInit(m: SemId)

  // ----- schedule()

  /** Distance along the ring from position d on to the first READY thread, or |ring|. */
  function Scan(ring: seq<Tid>, threads: map<Tid, Thread>, d: nat): (r: nat)
    requires d <= |ring| && forall t :: t in ring ==> t in threads
    ensures d <= r <= |ring| && (r < |ring| ==> threads[ring[r]].status == Ready)
    ensures forall i :: d <= i < r ==> threads[ring[i]].status != Ready
    decreases |ring| - d
  {
    if d == |ring| || threads[ring[d]].status == Ready then d else Scan(ring, threads, d + 1)
  }

  /** Every ring member has a TCB, and someone is running. */
  predicate Shaped(s: Sys) {
    s.ring != [] && forall t :: t in s.ring ==> t in s.threads
  }

  /** The scheduler: hand over to the next READY thread, or keep the current one going;
      when the current one is blocked and nobody else is READY it is simply set RUNNING. */
  function Schedule(s: Sys, resume: bool): (r: Sys)
    requires Shaped(s)
  {
    var cur := s.ring[0];
    var now := s.threads[cur];
    var d := Scan(s.ring, s.threads, 1);
    if d == |s.ring| then
      s.(threads := s.threads[cur := now.(status := if now.status == Blocked then Running else now.status, timeLeft := TIME_CONT)])
    else
      SwitchTo(s, d, resume)
  }

  function SwitchTo(s: Sys, d: nat, resume: bool): (r: Sys)
    requires Shaped(s) && d < |s.ring|
  {
    var cur, next := s.ring[0], s.ring[d];
    var now' := s.threads[cur].(status := if s.threads[cur].status == Running then Ready else s.threads[cur].status, saved := resume);
    var next' := s.threads[next].(status := Running, timeLeft := TIME_CONT);
    s.(ring := s.ring[d..] + s.ring[..d], threads := s.threads[cur := now'][next := next'], iflag := next'.saved)
  }

  // ----- semaphores

  /** The state in which sem_P calls schedule(): queued and blocked. */
  function Parked(s: Sys, m: SemId, forLock: bool, lockCond: bool, pCond: bool, entry: bool): (r: Sys)
    requires Shaped(s) && m in s.sems
  {
    var cur, sem := s.ring[0], s.sems[m];
    var blocked := s.threads[cur].(status := Blocked, pc := InP(m, forLock, lockCond, pCond, s.iflag, entry));
    s.(sems := s.sems[m := sem.(queue := sem.queue + [cur])], threads := s.threads[cur := blocked], iflag := false)
  }

  /** One turn of the loop of sem_P, interrupts off: take the semaphore and return through
      the enclosing calls, or queue up and block. */
  function TryP(s: Sys, m: SemId, forLock: bool, lockCond: bool, pCond: bool, entry: bool): (r: Sys)
    requires Shaped(s) && m in s.sems && (forLock ==> m in s.holder)
  {
    var cur, sem := s.ring[0], s.sems[m];
    if sem.val == 0 then
      Schedule(Parked(s, m, forLock, lockCond, pCond, entry), false)
    else
      s.(sems := s.sems[m := sem.(val := sem.val - 1, ps := sem.ps + 1)],
         threads := s.threads[cur := s.threads[cur].(pc := Outside)],
         holder := if forLock then s.holder[m := Some(cur)] else s.holder,
         iflag := if forLock then lockCond else pCond)
  }

  function DoV(s: Sys, m: SemId): (r: Sys)
    requires Shaped(s) && m in s.sems
  {
    var sem := s.sems[m];
    var sem' := sem.(val := (sem.val + 1) % WORD, vs := sem.vs + 1);
    if sem.queue != [] && sem.queue[0] in s.threads then
      var t := sem.queue[0];
      s.(sems := s.sems[m := sem'.(queue := sem.queue[1..])], threads := s.threads[t := s.threads[t].(status := Ready)])
    else
      s.(sems := s.sems[m := sem'])
  }

  // ----- steps

  /** What may happen next: the hardware ticks only with interrupts on, and a thread inside
      sem_P does nothing but go on there. Locks own their semaphores. */
  predicate Possible(s: Sys, a: Action)
    requires Shaped(s)
  {
    var pc := s.threads[s.ring[0]].pc;
    match a
    case Tick => s.iflag
    case P(m) => pc == Outside && m in s.sems && m !in s.holder
    case V(m) => pc == Outside && m in s.sems && m !in s.holder
    case Acquire(m) => pc == Outside && m in s.sems && m in s.holder
    case Release(m) => pc == Outside && m in s.sems && m in s.holder
    case Recheck => pc.InP? && pc.sem in s.sems && (pc.forLock ==> pc.sem in s.holder)
    case Create(t) => pc == Outside && t !in s.threads
    case SemInit(m, val) => pc == Outside && m !in s.sems && m !in s.holder && val < WORD
    case LockInit(m) => pc == Outside && m !in s.sems && m !in s.holder
  }

  function Step(s: Sys, a: Action): (r: Sys)
    requires Shaped(s) && Possible(s, a)
  {
    var cur := s.ring[0];
    var now := s.threads[cur];
    match a
    case Tick =>
      if now.timeLeft != 0 then
        s.(threads := s.threads[cur := now.(timeLeft := now.timeLeft - 1, timeCounter := now.timeCounter + 1)])
      else Schedule(s, true)
    case P(m) => TryP(s.(iflag := false), m, false, false, s.iflag, s.iflag)
    case V(m) => DoV(s, m)
    case Acquire(m) =>
      if s.holder[m] == Some(cur) then s else TryP(s.(iflag := false), m, true, s.iflag, false, s.iflag)
    case Release(m) =>
      if s.holder[m] == Some(cur) then DoV(s.(holder := s.holder[m := None]), m) else s
    case Recheck =>
      TryP(s.(iflag := now.pc.blockCond), now.pc.sem, now.pc.forLock, now.pc.lockCond, now.pc.pCond, now.pc.entry)
    case SemInit(m, val) => s.(sems := s.sems[m := Sem(val, [], val, 0, 0)])
    case LockInit(m) => s.(sems := s.sems[m := Sem(1, [], 1, 0, 0)], holder := s.holder[m := None])
    case Create(t) =>
      s.(ring := [cur, t] + s.ring[1..], threads := s.threads[t := Thread(Ready, TIME_CONT, 0, Outside, true)], iflag := true)
  }

  /** After threads_init: the main thread alone, RUNNING. */
  function Boot(main: Tid, iflag: bool): (s: Sys)
    ensures Shaped(s)
  {
    Sys(main, [main], map[main := Thread(Running, TIME_CONT, 0, Outside, true)], map[], map[], iflag)
  }

  // ----- the system invariant

  /** One cycle through main and the running thread, and nobody else runs. */
  ghost predicate RingOk(s: Sys) {
    && Shaped(s) && Distinct(s.ring) && s.main in s.ring
    && (forall t :: t in s.threads ==> t in s.ring)
    && (forall t :: t in s.threads ==> (s.threads[t].status == Running <==> t == s.ring[0]))
    && (forall t :: t in s.threads ==> s.threads[t].timeLeft <= TIME_CONT)
  }

  /** Queued threads are exactly the BLOCKED ones, each on the queue of the semaphore it waits for. */
  ghost predicate QueuesOk(s: Sys) {
    && (forall m :: m in s.sems ==> Distinct(s.sems[m].queue))
    && (forall m, t :: m in s.sems && t in s.sems[m].queue ==> WaitsFor(s, t, m))
    && (forall t :: t in s.threads && s.threads[t].status == Blocked ==> Queued(s, t))
  }

  predicate WaitsFor(s: Sys, t: Tid, m: SemId) {
    t in s.threads && s.threads[t].status == Blocked && s.threads[t].pc.InP? && s.threads[t].pc.sem == m
  }

  predicate Queued(s: Sys, t: Tid)
    requires t in s.threads
  {
    var pc := s.threads[t].pc;
    pc.InP? && pc.sem in s.sems && t in s.sems[pc.sem].queue
  }

  /** A thread inside sem_P has interrupts off and will restore the flag it found. */
  predicate PcOk(s: Sys, t: Tid)
    requires Shaped(s) && t in s.threads
  {
    var th := s.threads[t];
    th.pc.InP? ==>
      && th.pc.sem in s.sems && (th.pc.forLock <==> th.pc.sem in s.holder)
      && !th.pc.blockCond && (t != s.ring[0] ==> !th.saved)
      && th.pc.entry == (if th.pc.forLock then th.pc.lockCond else th.pc.pCond)
  }

  ghost predicate FlagsOk(s: Sys) {
    && Shaped(s)
    && (forall t :: t in s.threads ==> PcOk(s, t))
    && (s.threads[s.ring[0]].pc.InP? ==> !s.iflag)
  }

  /** Threads woken on m that have not re-checked it yet. */
  ghost function Woken(s: Sys, m: SemId): set<Tid> {
    set t | t in s.threads && s.threads[t].pc.InP? && s.threads[t].pc.sem == m && s.threads[t].status != Blocked
  }

  /** The value counts V's and P's: it never falls below zero, and wraps only when it counts
      past 32 bits. */
  predicate Counted(sem: Sem) {
    && sem.val == (sem.initial + sem.vs - sem.ps) % WORD
    && sem.ps + sem.val <= sem.initial + sem.vs
  }

  /** Waiters leave no value behind unless someone already woken is on the way to take it. */
  ghost predicate SemOk(s: Sys, m: SemId)
    requires m in s.sems
  {
    var sem := s.sems[m];
    Counted(sem) && (sem.queue != [] ==> sem.val <= |Woken(s, m)|)
  }

  /** A lock's semaphore is 1 when nobody holds the lock and 0 otherwise. */
  ghost predicate LockOk(s: Sys, m: SemId)
    requires m in s.holder
  {
    && m in s.sems
    && s.sems[m].val == (if s.holder[m] == None then 1 else 0)
    && (s.holder[m].Some? ==> s.holder[m].value in s.threads)
  }

  ghost predicate Inv(s: Sys) {
    && RingOk(s) && QueuesOk(s) && FlagsOk(s)
    && (forall m :: m in s.sems ==> SemOk(s, m))
    && (forall m :: m in s.holder ==> LockOk(s, m))
  }
}

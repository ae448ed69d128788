/** Every step keeps the system invariant, as long as a thread never blocks when no other
    thread could run. */
module SchedInv {
  import opened Machine
  import opened Sequences
  import opened Wrappers
  import opened Sched

  /** Some thread other than the running one is READY. */
  ghost predicate OtherReady(s: Sys) {
    exists i :: 1 <= i < |s.ring| && s.ring[i] in s.threads && s.threads[s.ring[i]].status == Ready
  }

  /** The ring as schedule() finds it: the running thread may just have blocked itself. */
  ghost predicate AtSchedule(s: Sys) {
    && Shaped(s) && Distinct(s.ring) && s.main in s.ring
    && (forall t :: t in s.threads ==> t in s.ring && s.threads[t].timeLeft <= TIME_CONT)
    && (forall t :: t in s.threads && t != s.ring[0] ==> s.threads[t].status != Running)
    && s.threads[s.ring[0]].status != Ready
    && (s.threads[s.ring[0]].status == Blocked ==> Scan(s.ring, s.threads, 1) < |s.ring|)
  }

  lemma Rotated(r: seq<Tid>, d: nat)
    requires Distinct(r) && d < |r|
    ensures var q := r[d..] + r[..d]; Distinct(q) && (forall t :: t in q <==> t in r)
  {
    var q := r[d..] + r[..d];
    forall i, j | 0 <= i < j < |q| ensures Differ(q, i, j) {
      var i' := if i < |r| - d then i + d else i - (|r| - d);
      var j' := if j < |r| - d then j + d else j - (|r| - d);
      if i' < j' { assert Differ(r, i', j'); } else { assert Differ(r, j', i'); }
    }
    assert r == r[..d] + r[d..];
  }

  /** A switch, thread by thread. */
  lemma Switched(s: Sys, d: nat, resume: bool)
    requires AtSchedule(s) && 1 <= d < |s.ring|
    ensures var r, cur, next := SwitchTo(s, d, resume), s.ring[0], s.ring[d];
            && cur != next && r.threads.Keys == s.threads.Keys && r.ring[0] == next
            && r.threads[cur] == s.threads[cur].(status := if s.threads[cur].status == Running then Ready else s.threads[cur].status, saved := resume)
            && r.threads[next] == s.threads[next].(status := Running, timeLeft := TIME_CONT)
            && forall t :: t in s.threads && t != cur && t != next ==> r.threads[t] == s.threads[t]
  {
    assert Differ(s.ring, 0, d);
  }

  lemma SwitchRing(s: Sys, d: nat, resume: bool)
    requires AtSchedule(s) && 1 <= d < |s.ring|
    ensures RingOk(SwitchTo(s, d, resume))
  {
    Switched(s, d, resume);
    Rotated(s.ring, d);
  }

  lemma ScheduleRing(s: Sys, resume: bool)
    requires AtSchedule(s)
    ensures RingOk(Schedule(s, resume)) && Schedule(s, resume).threads.Keys == s.threads.Keys
  {
    var d := Scan(s.ring, s.threads, 1);
    if d < |s.ring| { SwitchRing(s, d, resume); }
  }

  ghost predicate SameButRunning(s: Sys, r: Sys)
    requires Shaped(s)
  {
    && r.sems == s.sems && r.holder == s.holder && r.main == s.main && Shaped(r) && r.threads.Keys == s.threads.Keys
    && (forall t :: t in s.threads ==> SameStanding(s.threads[t], r.threads[t]))
  }

  predicate SameStanding(a: Thread, b: Thread) {
    (a.status == Blocked <==> b.status == Blocked) && a.pc == b.pc
  }

  /** Scheduling moves threads between RUNNING and READY only. */
  lemma ScheduleThreads(s: Sys, resume: bool)
    requires AtSchedule(s)
    ensures SameButRunning(s, Schedule(s, resume))
  {
    var d := Scan(s.ring, s.threads, 1);
    if d < |s.ring| { SwitchStanding(s, d, resume); }
  }

  lemma SwitchStanding(s: Sys, d: nat, resume: bool)
    requires AtSchedule(s) && 1 <= d < |s.ring| && s.threads[s.ring[d]].status == Ready
    ensures SameButRunning(s, SwitchTo(s, d, resume))
  {
    Switched(s, d, resume);
    var r := SwitchTo(s, d, resume);
    forall t | t in r.ring ensures t in r.threads { assert t in s.ring; }
  }

  lemma ScheduleQueues(s: Sys, resume: bool)
    requires AtSchedule(s) && QueuesOk(s)
    ensures QueuesOk(Schedule(s, resume))
  {
    ScheduleThreads(s, resume);
    var r := Schedule(s, resume);
    forall m, t | m in r.sems && t in r.sems[m].queue ensures WaitsFor(r, t, m) { assert WaitsFor(s, t, m); }
    forall t | t in r.threads && r.threads[t].status == Blocked ensures Queued(r, t) { assert Queued(s, t); }
  }

  lemma ScheduleWoken(s: Sys, resume: bool, m: SemId)
    requires AtSchedule(s)
    ensures Woken(Schedule(s, resume), m) == Woken(s, m)
  {
    ScheduleThreads(s, resume);
  }

  lemma ScheduleFlags(s: Sys, resume: bool)
    requires AtSchedule(s) && forall t :: t in s.threads ==> PcOk(s, t)
    requires s.threads[s.ring[0]].pc.InP? ==> !resume && !s.iflag
    ensures FlagsOk(Schedule(s, resume))
  {
    ScheduleThreads(s, resume);
    var r := Schedule(s, resume);
    var d := Scan(s.ring, s.threads, 1);
    if d < |s.ring| {
      Switched(s, d, resume);
      assert PcOk(s, r.ring[0]);
    }
    forall t | t in r.threads ensures PcOk(r, t) { assert PcOk(s, t) && SameStanding(s.threads[t], r.threads[t]); }
  }

  lemma ScheduleSems(s: Sys, resume: bool)
    requires AtSchedule(s)
    requires forall m :: m in s.sems ==> SemOk(s, m)
    requires forall m :: m in s.holder ==> LockOk(s, m)
    ensures forall m :: m in Schedule(s, resume).sems ==> SemOk(Schedule(s, resume), m)
    ensures forall m :: m in Schedule(s, resume).holder ==> LockOk(Schedule(s, resume), m)
  {
    var r := Schedule(s, resume);
    ScheduleThreads(s, resume);
    forall m | m in r.sems ensures SemOk(r, m) { ScheduleWoken(s, resume, m); assert SemOk(s, m); }
    forall m | m in r.holder ensures LockOk(r, m) { assert LockOk(s, m); }
  }

  ghost predicate MaySchedule(s: Sys, resume: bool) {
    && AtSchedule(s) && QueuesOk(s) && (forall t :: t in s.threads ==> PcOk(s, t))
    && (s.threads[s.ring[0]].pc.InP? ==> !resume && !s.iflag)
    && (forall m :: m in s.sems ==> SemOk(s, m))
    && (forall m :: m in s.holder ==> LockOk(s, m))
  }

  lemma RescheduleKeeps(s: Sys, resume: bool)
    requires MaySchedule(s, resume)
    ensures Inv(Schedule(s, resume))
  {
    assert RingOk(Schedule(s, resume)) by { ScheduleRing(s, resume); }
    assert QueuesOk(Schedule(s, resume)) by { ScheduleQueues(s, resume); }
    assert FlagsOk(Schedule(s, resume)) by { ScheduleFlags(s, resume); }
    ScheduleSems(s, resume);
  }

  lemma TickKeeps(s: Sys)
    requires Inv(s) && s.iflag
    ensures Inv(Step(s, Tick))
  {
    var cur := s.ring[0];
    var r := Step(s, Tick);
    assert PcOk(s, cur);
    if s.threads[cur].timeLeft == 0 {
      RescheduleKeeps(s, true);
    } else {
      SameProgress(s, r);
    }
  }

  /** Steps that touch neither semaphores nor where any thread stands. */
  lemma SameProgress(s: Sys, r: Sys)
    requires Inv(s) && RingOk(r) && r.sems == s.sems && r.holder == s.holder && r.ring[0] == s.ring[0]
    requires r.iflag == s.iflag && r.threads.Keys == s.threads.Keys
    requires forall t :: t in s.threads ==>
               r.threads[t].status == s.threads[t].status && r.threads[t].pc == s.threads[t].pc && r.threads[t].saved == s.threads[t].saved
    ensures Inv(r)
  {
    assert QueuesOk(r) by { SameQueues(s, r); }
    SameSems(s, r);
    forall t | t in r.threads ensures PcOk(r, t) { assert PcOk(s, t); }
  }

  /** Queues stay right when no thread starts or stops waiting. */
  lemma SameQueues(s: Sys, r: Sys)
    requires QueuesOk(s) && r.threads.Keys >= s.threads.Keys && r.sems.Keys >= s.sems.Keys
    requires forall m :: m in s.sems ==> r.sems[m].queue == s.sems[m].queue
    requires forall m :: m in r.sems && m !in s.sems ==> r.sems[m].queue == []
    requires forall t :: t in r.threads && r.threads[t].status == Blocked ==> t in s.threads && s.threads[t].status == Blocked
    requires forall t :: t in s.threads && s.threads[t].status == Blocked ==> r.threads[t].status == Blocked && r.threads[t].pc == s.threads[t].pc
    ensures QueuesOk(r)
  {
    forall m, t | m in r.sems && t in r.sems[m].queue ensures WaitsFor(r, t, m) { assert WaitsFor(s, t, m); }
    forall t | t in r.threads && r.threads[t].status == Blocked ensures Queued(r, t) { assert Queued(s, t); }
  }

  lemma SameSems(s: Sys, r: Sys)
    requires r.sems == s.sems && r.holder == s.holder && r.threads.Keys >= s.threads.Keys
    requires forall m :: m in s.sems ==> SemOk(s, m) && Woken(r, m) == Woken(s, m)
    requires forall m :: m in s.holder ==> LockOk(s, m)
    ensures forall m :: m in r.sems ==> SemOk(r, m)
    ensures forall m :: m in r.holder ==> LockOk(r, m)
  {
    forall m | m in r.sems ensures SemOk(r, m) { assert SemOk(s, m); }
    forall m | m in r.holder ensures LockOk(r, m) { assert LockOk(s, m); }
  }

  // ----- sem_P

  /** The running thread on its way through sem_P: either just entered, or woken on m. */
  ghost predicate AtP(s: Sys, m: SemId, forLock: bool, lockCond: bool, pCond: bool, entry: bool) {
    && Inv(s) && !s.iflag && m in s.sems && (forLock <==> m in s.holder)
    && (s.threads[s.ring[0]].pc == Outside || s.threads[s.ring[0]].pc.sem == m)
    && entry == (if forLock then lockCond else pCond)
  }

  lemma {:induction false} ScanFinds(s: Sys, d: nat, i: nat)
    requires Shaped(s) && d <= i < |s.ring| && s.threads[s.ring[i]].status == Ready
    ensures Scan(s.ring, s.threads, d) <= i
  {
    if Scan(s.ring, s.threads, d) > i { assert false; }
  }

  lemma ParkedQueues(s: Sys, m: SemId, forLock: bool, lockCond: bool, pCond: bool, entry: bool)
    requires AtP(s, m, forLock, lockCond, pCond, entry)
    ensures QueuesOk(Parked(s, m, forLock, lockCond, pCond, entry))
  {
    var r, cur := Parked(s, m, forLock, lockCond, pCond, entry), s.ring[0];
    var q := s.sems[m].queue;
    forall k, t | k in s.sems && t in s.sems[k].queue ensures t != cur { assert WaitsFor(s, t, k); }
    forall i, j | 0 <= i < j < |q| + 1 ensures Differ(q + [cur], i, j) {
      if j < |q| { assert Differ(q, i, j); } else { assert q[i] in q; }
    }
    forall k, t | k in r.sems && t in r.sems[k].queue ensures WaitsFor(r, t, k) {
      if t != cur {
        assert t in s.sems[k].queue;
        assert WaitsFor(s, t, k);
      }
    }
    forall t | t in r.threads && r.threads[t].status == Blocked ensures Queued(r, t) {
      if t != cur { assert Queued(s, t); } else { assert r.sems[m].queue[|q|] == cur; }
    }
  }

  lemma ParkedSems(s: Sys, m: SemId, forLock: bool, lockCond: bool, pCond: bool, entry: bool)
    requires AtP(s, m, forLock, lockCond, pCond, entry) && s.sems[m].val == 0
    ensures var r := Parked(s, m, forLock, lockCond, pCond, entry);
            (forall k :: k in r.sems ==> SemOk(r, k)) && (forall k :: k in r.holder ==> LockOk(r, k))
  {
    var r, cur := Parked(s, m, forLock, lockCond, pCond, entry), s.ring[0];
    forall k | k in r.sems ensures SemOk(r, k) {
      assert SemOk(s, k);
      if k != m { assert Woken(r, k) == Woken(s, k); }
    }
    forall k | k in r.holder ensures LockOk(r, k) { assert LockOk(s, k); }
  }

  lemma ParkedMaySchedule(s: Sys, m: SemId, forLock: bool, lockCond: bool, pCond: bool, entry: bool)
    requires AtP(s, m, forLock, lockCond, pCond, entry) && s.sems[m].val == 0 && OtherReady(s)
    ensures MaySchedule(Parked(s, m, forLock, lockCond, pCond, entry), false)
  {
    assert AtSchedule(Parked(s, m, forLock, lockCond, pCond, entry)) by { ParkedRing(s, m, forLock, lockCond, pCond, entry); }
    ParkedPcs(s, m, forLock, lockCond, pCond, entry);
    ParkedQueues(s, m, forLock, lockCond, pCond, entry);
    ParkedSems(s, m, forLock, lockCond, pCond, entry);
  }

  lemma ParkedRing(s: Sys, m: SemId, forLock: bool, lockCond: bool, pCond: bool, entry: bool)
    requires RingOk(s) && m in s.sems && OtherReady(s)
    ensures AtSchedule(Parked(s, m, forLock, lockCond, pCond, entry))
  {
    var r := Parked(s, m, forLock, lockCond, pCond, entry);
    var i :| 1 <= i < |s.ring| && s.ring[i] in s.threads && s.threads[s.ring[i]].status == Ready;
    assert Differ(s.ring, 0, i);
    ScanFinds(r, 1, i);
  }

  lemma ParkedPcs(s: Sys, m: SemId, forLock: bool, lockCond: bool, pCond: bool, entry: bool)
    requires FlagsOk(s) && !s.iflag && m in s.sems && (forLock <==> m in s.holder)
    requires entry == (if forLock then lockCond else pCond)
    ensures var r := Parked(s, m, forLock, lockCond, pCond, entry); Shaped(r) && forall t :: t in r.threads ==> PcOk(r, t)
  {
    var r := Parked(s, m, forLock, lockCond, pCond, entry);
    forall t | t in r.threads ensures PcOk(r, t) { assert PcOk(s, t); }
  }

  /** The semaphore is free: take it and leave. */
  lemma TakenKeeps(s: Sys, m: SemId, forLock: bool, lockCond: bool, pCond: bool, entry: bool)
    requires AtP(s, m, forLock, lockCond, pCond, entry) && s.sems[m].val > 0
    ensures Inv(TryP(s, m, forLock, lockCond, pCond, entry))
  {
    var r, cur := TryP(s, m, forLock, lockCond, pCond, entry), s.ring[0];
    forall k, t | k in r.sems && t in r.sems[k].queue ensures WaitsFor(r, t, k) { assert WaitsFor(s, t, k); }
    forall t | t in r.threads && r.threads[t].status == Blocked ensures Queued(r, t) { assert Queued(s, t); }
    forall t | t in r.threads ensures PcOk(r, t) { assert PcOk(s, t); }
    forall k | k in r.sems ensures SemOk(r, k) { TakenSem(s, m, k, forLock, lockCond, pCond, entry); }
    forall k | k in r.holder ensures LockOk(r, k) {
      if k in s.holder { assert LockOk(s, k); }
    }
  }

  lemma TakenWoken(s: Sys, m: SemId, k: SemId, forLock: bool, lockCond: bool, pCond: bool, entry: bool)
    requires AtP(s, m, forLock, lockCond, pCond, entry) && s.sems[m].val > 0 && k in s.sems
    ensures Woken(TryP(s, m, forLock, lockCond, pCond, entry), k) == Woken(s, k) - (if k == m then {s.ring[0]} else {})
  {}

  /** Taking one off a positive value never borrows. */
  lemma CountDown(sem: Sem)
    requires Counted(sem) && sem.val > 0
    ensures Counted(sem.(val := sem.val - 1, ps := sem.ps + 1))
  {
    var x := sem.initial + sem.vs - sem.ps;
    assert x / WORD * WORD + sem.val == x;
    LowPart(x / WORD, sem.val - 1);
  }

  lemma LowPart(q: int, r: nat)
    requires r < WORD
    ensures (q * WORD + r) % WORD == r
  {}

  lemma CountUp(sem: Sem)
    requires Counted(sem)
    ensures Counted(sem.(val := (sem.val + 1) % WORD, vs := sem.vs + 1)) && (sem.val + 1) % WORD <= sem.val + 1
  {
    var x := sem.initial + sem.vs - sem.ps;
    assert x / WORD * WORD + sem.val == x;
    if sem.val + 1 < WORD { LowPart(x / WORD, sem.val + 1); } else { LowPart(x / WORD + 1, 0); }
  }

  lemma TakenSem(s: Sys, m: SemId, k: SemId, forLock: bool, lockCond: bool, pCond: bool, entry: bool)
    requires AtP(s, m, forLock, lockCond, pCond, entry) && s.sems[m].val > 0 && k in s.sems
    ensures SemOk(TryP(s, m, forLock, lockCond, pCond, entry), k)
  {
    TakenWoken(s, m, k, forLock, lockCond, pCond, entry);
    assert SemOk(s, k);
    TakenOne(s, TryP(s, m, forLock, lockCond, pCond, entry), m, k);
  }

  lemma TakenOne(s: Sys, r: Sys, m: SemId, k: SemId)
    requires m in s.sems && k in s.sems && SemOk(s, k) && s.sems[m].val > 0 && s.ring != []
    requires r.sems == s.sems[m := s.sems[m].(val := s.sems[m].val - 1, ps := s.sems[m].ps + 1)]
    requires Woken(r, k) == Woken(s, k) - (if k == m then {s.ring[0]} else {})
    ensures SemOk(r, k)
  {
    if k == m { CountDown(s.sems[m]); }
  }

  lemma TryPKeeps(s: Sys, m: SemId, forLock: bool, lockCond: bool, pCond: bool, entry: bool)
    requires AtP(s, m, forLock, lockCond, pCond, entry) && (s.sems[m].val == 0 ==> OtherReady(s))
    ensures Inv(TryP(s, m, forLock, lockCond, pCond, entry))
  {
    if s.sems[m].val == 0 {
      ParkedMaySchedule(s, m, forLock, lockCond, pCond, entry);
      RescheduleKeeps(Parked(s, m, forLock, lockCond, pCond, entry), false);
    } else {
      TakenKeeps(s, m, forLock, lockCond, pCond, entry);
    }
  }

  // ----- sem_V

  lemma VKeeps(s: Sys, m: SemId)
    requires RingOk(s) && QueuesOk(s) && FlagsOk(s) && m in s.sems
    requires forall k :: k in s.sems ==> SemOk(s, k)
    requires forall k :: k in s.holder && k != m ==> LockOk(s, k)
    requires m in s.holder ==> s.holder[m] == None && s.sems[m].val == 0
    ensures Inv(DoV(s, m))
  {
    var r := DoV(s, m);
    VRing(s, m);
    VQueues(s, m);
    VFlags(s, m);
    VLocks(s, m);
    forall k | k in r.sems ensures SemOk(r, k) { VSem(s, m, k); }
  }

  lemma VLocks(s: Sys, m: SemId)
    requires Shaped(s) && m in s.sems
    requires forall k :: k in s.holder && k != m ==> LockOk(s, k)
    requires m in s.holder ==> s.holder[m] == None && s.sems[m].val == 0
    ensures forall k :: k in DoV(s, m).holder ==> LockOk(DoV(s, m), k)
  {
    forall k | k in s.holder ensures LockOk(DoV(s, m), k) {
      if k != m { assert LockOk(s, k); }
    }
  }

  lemma VHead(s: Sys, m: SemId)
    requires Shaped(s) && QueuesOk(s) && m in s.sems && s.sems[m].queue != []
    ensures WaitsFor(s, s.sems[m].queue[0], m)
  {
    assert s.sems[m].queue[0] in s.sems[m].queue;
  }

  lemma VRing(s: Sys, m: SemId)
    requires RingOk(s) && QueuesOk(s) && m in s.sems
    ensures RingOk(DoV(s, m))
  {
    if s.sems[m].queue != [] { VHead(s, m); }
  }

  lemma VFlags(s: Sys, m: SemId)
    requires FlagsOk(s) && m in s.sems
    ensures FlagsOk(DoV(s, m))
  {
    var r := DoV(s, m);
    forall t | t in r.threads ensures PcOk(r, t) { assert PcOk(s, t); }
  }

  lemma HeadNotInTail(q: seq<Tid>)
    requires Distinct(q) && q != []
    ensures Distinct(q[1..]) && q[0] !in q[1..]
    ensures forall t :: t in q && t != q[0] ==> t in q[1..]
  {
    forall i, j | 0 <= i < j < |q| - 1 ensures Differ(q[1..], i, j) { assert Differ(q, i + 1, j + 1); }
    forall i | 0 <= i < |q| - 1 ensures q[1..][i] != q[0] { assert Differ(q, 0, i + 1); }
  }

  lemma VQueues(s: Sys, m: SemId)
    requires Shaped(s) && QueuesOk(s) && m in s.sems
    ensures QueuesOk(DoV(s, m))
  {
    var r, q := DoV(s, m), s.sems[m].queue;
    if q != [] {
      VHead(s, m);
      HeadNotInTail(q);
    }
    forall k, t | k in r.sems && t in r.sems[k].queue ensures WaitsFor(r, t, k) {
      assert t in s.sems[k].queue;
      assert WaitsFor(s, t, k);
    }
    forall t | t in r.threads && r.threads[t].status == Blocked ensures Queued(r, t) { assert Queued(s, t); }
  }

  lemma VWoken(s: Sys, m: SemId, k: SemId)
    requires Shaped(s) && QueuesOk(s) && m in s.sems && k in s.sems
    ensures var q := s.sems[m].queue;
            Woken(DoV(s, m), k) == Woken(s, k) + (if k == m && q != [] then {q[0]} else {})
            && (q != [] ==> q[0] !in Woken(s, k))
  {
    if s.sems[m].queue != [] { VHead(s, m); }
  }

  lemma VSem(s: Sys, m: SemId, k: SemId)
    requires Shaped(s) && QueuesOk(s) && m in s.sems && k in s.sems && SemOk(s, k)
    ensures SemOk(DoV(s, m), k)
  {
    VWoken(s, m, k);
    if s.sems[m].queue != [] { VHead(s, m); }
    GivenOne(s, DoV(s, m), m, k);
  }

  lemma GivenOne(s: Sys, r: Sys, m: SemId, k: SemId)
    requires m in s.sems && k in s.sems && SemOk(s, k)
    requires var q, sem := s.sems[m].queue, s.sems[m].(val := (s.sems[m].val + 1) % WORD, vs := s.sems[m].vs + 1);
             && r.sems == s.sems[m := sem.(queue := if q == [] then q else q[1..])]
             && Woken(r, k) == Woken(s, k) + (if k == m && q != [] then {q[0]} else {})
             && (q != [] ==> q[0] !in Woken(s, k))
    ensures SemOk(r, k)
  {
    if k == m {
      CountUp(s.sems[m]);
      var q := s.sems[m].queue;
      if q != [] { assert |Woken(s, k) + {q[0]}| == |Woken(s, k)| + 1; }
    }
  }
}

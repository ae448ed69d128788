/** What the calls and ticks of a run add up to: the value of a semaphore counted in the calls
    made on it, the interrupt flag a preempted thread comes back with, how long a thread keeps
    the processor, and where a new thread goes. */
module SchedLaws {
  import opened Machine
  import opened Sequences
  import opened Wrappers
  import opened Sched
  import opened SchedInv
  import opened SchedRuns

  // ----- the value of a semaphore

  /** The running thread gets through sem_P on m with this step. */
  predicate Passes(s: Sys, a: Action, m: SemId)
    requires Shaped(s) && Possible(s, a)
  {
    WaitsOn(s, a, m) && !Blocks(s, a) && (a.Acquire? ==> s.holder[m] != Some(s.ring[0]))
  }

  predicate VAt(s: Sys, a: Action, m: SemId) { Shaped(s) && Possible(s, a) && Wakes(s, a, m) }

  predicate PAt(s: Sys, a: Action, m: SemId) { Shaped(s) && Possible(s, a) && Passes(s, a, m) }

  /** How many of the steps from j up to i are V's on m, by sem_V or by the holder's release. */
  function VsBetween(trace: seq<Sys>, acts: seq<Action>, m: SemId, j: nat, i: nat): nat
    requires i <= |acts| <= |trace|
  {
    if i <= j then 0 else VsBetween(trace, acts, m, j, i - 1) + if VAt(trace[i - 1], acts[i - 1], m) then 1 else 0
  }

  /** How many of them are P's on m that do not block, by sem_P, lock_acquire or a woken thread. */
  function PsBetween(trace: seq<Sys>, acts: seq<Action>, m: SemId, j: nat, i: nat): nat
    requires i <= |acts| <= |trace|
  {
    if i <= j then 0 else PsBetween(trace, acts, m, j, i - 1) + if PAt(trace[i - 1], acts[i - 1], m) then 1 else 0
  }

  /** The record that a semaphore keeps of its calls. */
  predicate Records(sem: Sem, n: nat, v: nat, p: nat) { sem.initial == n && sem.vs == v && sem.ps == p }

  /** One step: a V counts up by one, 32 bits wide, a P that passes counts down, and nothing
      else touches the value. */
  lemma StepVal(s: Sys, a: Action, m: SemId)
    requires Shaped(s) && Possible(s, a) && m in s.sems
    ensures m in Step(s, a).sems
    ensures Step(s, a).sems[m].val ==
            if Wakes(s, a, m) then (s.sems[m].val + 1) % WORD else if Passes(s, a, m) then s.sems[m].val - 1 else s.sems[m].val
    ensures Passes(s, a, m) ==> s.sems[m].val > 0
    ensures var sem := s.sems[m];
            Records(Step(s, a).sems[m], sem.initial, sem.vs + if Wakes(s, a, m) then 1 else 0, sem.ps + if Passes(s, a, m) then 1 else 0)
  {
    if a.P? || a.Acquire? || a.Recheck? {
      EnterVal(s, a, m);
    } else if a.V? {
      VVal(s, a.m, m);
    } else if a.Release? {
      VVal(s.(holder := s.holder[a.m := None]), a.m, m);
    }
  }

  lemma EnterVal(s: Sys, a: Action, m: SemId)
    requires Shaped(s) && Possible(s, a) && m in s.sems && (a.P? || a.Acquire? || a.Recheck?)
    ensures m in Step(s, a).sems && (Passes(s, a, m) ==> s.sems[m].val > 0)
    ensures Step(s, a).sems[m].val == if Passes(s, a, m) then s.sems[m].val - 1 else s.sems[m].val
    ensures var sem := s.sems[m]; Records(Step(s, a).sems[m], sem.initial, sem.vs, sem.ps + if Passes(s, a, m) then 1 else 0)
  {
    match a
    case P(k) => TryPVal(Entering(s, a), k, m, false, false, s.iflag, s.iflag);
    case Acquire(k) => if s.holder[k] != Some(s.ring[0]) { TryPVal(Entering(s, a), k, m, true, s.iflag, false, s.iflag); }
    case Recheck =>
      var pc := s.threads[s.ring[0]].pc;
      TryPVal(Entering(s, a), pc.sem, m, pc.forLock, pc.lockCond, pc.pCond, pc.entry);
  }

  lemma VVal(s: Sys, m: SemId, k: SemId)
    requires Shaped(s) && m in s.sems && k in s.sems
    ensures var r, sem := DoV(s, m), s.sems[k];
            && k in r.sems && r.sems[k].val == (if k == m then (sem.val + 1) % WORD else sem.val)
            && Records(r.sems[k], sem.initial, sem.vs + if k == m then 1 else 0, sem.ps)
  {}

  lemma TryPVal(s: Sys, m: SemId, k: SemId, forLock: bool, lockCond: bool, pCond: bool, entry: bool)
    requires Shaped(s) && m in s.sems && k in s.sems && (forLock ==> m in s.holder)
    ensures var r, sem, takes := TryP(s, m, forLock, lockCond, pCond, entry), s.sems[k], k == m && s.sems[m].val > 0;
            && k in r.sems && r.sems[k].val == (if takes then sem.val - 1 else sem.val)
            && Records(r.sems[k], sem.initial, sem.vs, sem.ps + if takes then 1 else 0)
  {}

  /** The step creates m with value n. */
  predicate Creates(a: Action, m: SemId, n: nat) { a == SemInit(m, n) || (a == LockInit(m) && n == 1) }

  /** x counted in 32 bits, and without ever borrowing. */
  predicate CountIs(val: nat, x: int) { val == x % WORD && val <= x }

  /** The law of semaphores: over every run, from any point on, the value is the one it had
      there plus the V's minus the P's that have passed, counted in the steps of the run. */
  lemma {:induction false} CountsFrom(trace: seq<Sys>, acts: seq<Action>, m: SemId, n: nat, j: nat, i: nat)
    requires IsRun(trace, acts) && j <= i < |trace| && m in trace[j].sems && trace[j].sems[m].val == n < WORD
    ensures m in trace[i].sems && CountIs(trace[i].sems[m].val, n + VsBetween(trace, acts, m, j, i) - PsBetween(trace, acts, m, j, i))
    decreases i
  {
    if i > j {
      var k := i - 1;
      CountsFrom(trace, acts, m, n, j, k);
      assert Follows(trace[k], acts[k], trace[k + 1]);
      CountsNext(trace, acts, m, n, j, k, i);
    }
  }

  /** ... so from its creation on it is its initial value plus V's minus P's. */
  lemma SemaphoreCounts(trace: seq<Sys>, acts: seq<Action>, m: SemId, n: nat, j: nat, k: nat, i: nat)
    requires IsRun(trace, acts) && j < |acts| && Creates(acts[j], m, n) && k == j + 1 && k <= i < |trace|
    ensures m in trace[i].sems && CountIs(trace[i].sems[m].val, n + VsBetween(trace, acts, m, k, i) - PsBetween(trace, acts, m, k, i))
  {
    assert Follows(trace[j], acts[j], trace[j + 1]);
    Created(trace[j], acts[j], m, n);
    CountsFrom(trace, acts, m, n, k, i);
  }

  lemma CountsNext(trace: seq<Sys>, acts: seq<Action>, m: SemId, n: nat, j: nat, k: nat, i: nat)
    requires j <= k < |acts| < |trace| && i == k + 1 && Follows(trace[k], acts[k], trace[i]) && m in trace[k].sems
    requires CountIs(trace[k].sems[m].val, n + VsBetween(trace, acts, m, j, k) - PsBetween(trace, acts, m, j, k))
    ensures m in trace[i].sems && CountIs(trace[i].sems[m].val, n + VsBetween(trace, acts, m, j, i) - PsBetween(trace, acts, m, j, i))
  {
    var x := n + VsBetween(trace, acts, m, j, k) - PsBetween(trace, acts, m, j, k);
    var y := BetweenNext(trace, acts, m, n, j, k, i, x);
    CountsOn(trace[k], acts[k], trace[i], m, x, y);
  }

  lemma BetweenNext(trace: seq<Sys>, acts: seq<Action>, m: SemId, n: nat, j: nat, k: nat, i: nat, x: int) returns (y: int)
    requires j <= k < |acts| < |trace| && i == k + 1 && x == n + VsBetween(trace, acts, m, j, k) - PsBetween(trace, acts, m, j, k)
    ensures y == x + (if VAt(trace[k], acts[k], m) then 1 else 0) - (if PAt(trace[k], acts[k], m) then 1 else 0)
    ensures y == n + VsBetween(trace, acts, m, j, i) - PsBetween(trace, acts, m, j, i)
    ensures VsBetween(trace, acts, m, j, i) == VsBetween(trace, acts, m, j, k) + if VAt(trace[k], acts[k], m) then 1 else 0
    ensures PsBetween(trace, acts, m, j, i) == PsBetween(trace, acts, m, j, k) + if PAt(trace[k], acts[k], m) then 1 else 0
  {
    y := n + VsBetween(trace, acts, m, j, i) - PsBetween(trace, acts, m, j, i);
  }

  lemma CountsOn(s: Sys, a: Action, r: Sys, m: SemId, x: int, y: int)
    requires Follows(s, a, r) && m in s.sems && CountIs(s.sems[m].val, x)
    requires y == x + (if VAt(s, a, m) then 1 else 0) - (if PAt(s, a, m) then 1 else 0)
    ensures m in r.sems && CountIs(r.sems[m].val, y)
  {
    StepVal(s, a, m);
    NextCount(x, s.sems[m].val, r.sems[m].val, y, Wakes(s, a, m), Passes(s, a, m));
  }

  lemma Created(s: Sys, a: Action, m: SemId, n: nat)
    requires Shaped(s) && Possible(s, a) && Creates(a, m, n)
    ensures m in Step(s, a).sems && Step(s, a).sems[m].val == n < WORD && Records(Step(s, a).sems[m], n, 0, 0)
  {}

  lemma NextCount(x: int, val: nat, val': nat, y: int, up: bool, down: bool)
    requires CountIs(val, x) && !(up && down) && (down ==> val > 0)
    requires val' == if up then (val + 1) % WORD else if down then val - 1 else val
    requires y == x + (if up then 1 else 0) - (if down then 1 else 0)
    ensures CountIs(val', y)
  {
    var q := x / WORD;
    assert x == q * WORD + val;
    if up {
      if val + 1 < WORD { LowPart(q, val + 1); } else { LowPart(q + 1, 0); }
    } else if down {
      LowPart(q, val - 1);
    }
  }

  // ----- the records of a semaphore

  lemma StepRecords(s: Sys, a: Action, r: Sys, m: SemId, n: nat, v: nat, p: nat)
    requires Follows(s, a, r) && m in s.sems && Records(s.sems[m], n, v, p)
    ensures m in r.sems && Records(r.sems[m], n, v + if VAt(s, a, m) then 1 else 0, p + if PAt(s, a, m) then 1 else 0)
  {
    StepVal(s, a, m);
  }

  lemma {:induction false} RecordsFrom(trace: seq<Sys>, acts: seq<Action>, m: SemId, n: nat, j: nat, i: nat)
    requires IsRun(trace, acts) && j <= i < |trace| && m in trace[j].sems && Records(trace[j].sems[m], n, 0, 0)
    ensures m in trace[i].sems && Records(trace[i].sems[m], n, VsBetween(trace, acts, m, j, i), PsBetween(trace, acts, m, j, i))
    decreases i
  {
    if i > j {
      var k := i - 1;
      RecordsFrom(trace, acts, m, n, j, k);
      assert Follows(trace[k], acts[k], trace[k + 1]);
      RecordsNext(trace, acts, m, n, j, k, i);
    }
  }

  lemma RecordsNext(trace: seq<Sys>, acts: seq<Action>, m: SemId, n: nat, j: nat, k: nat, i: nat)
    requires j <= k < |acts| < |trace| && i == k + 1 && Follows(trace[k], acts[k], trace[i]) && m in trace[k].sems
    requires Records(trace[k].sems[m], n, VsBetween(trace, acts, m, j, k), PsBetween(trace, acts, m, j, k))
    ensures m in trace[i].sems && Records(trace[i].sems[m], n, VsBetween(trace, acts, m, j, i), PsBetween(trace, acts, m, j, i))
  {
    var v, p := VsBetween(trace, acts, m, j, k), PsBetween(trace, acts, m, j, k);
    StepRecords(trace[k], acts[k], trace[i], m, n, v, p);
    var x := BetweenNext(trace, acts, m, n, j, k, i, n + v - p);
  }

  /** The records are the counts of the run: what SchedRuns proves about `initial`, `vs` and
      `ps` it proves about the calls made. */
  lemma RecordsAreCounts(trace: seq<Sys>, acts: seq<Action>, m: SemId, n: nat, j: nat, k: nat, i: nat)
    requires IsRun(trace, acts) && j < |acts| && Creates(acts[j], m, n) && k == j + 1 && k <= i < |trace|
    ensures m in trace[i].sems && trace[i].sems[m].initial == n
    ensures trace[i].sems[m].vs == VsBetween(trace, acts, m, k, i) && trace[i].sems[m].ps == PsBetween(trace, acts, m, k, i)
  {
    assert Follows(trace[j], acts[j], trace[j + 1]);
    Created(trace[j], acts[j], m, n);
    RecordsFrom(trace, acts, m, n, k, i);
  }

  // ----- who runs next, and with which flag

  /** Ring position d holds the first READY thread behind the running one. */
  predicate FirstReady(s: Sys, d: nat) {
    && 1 <= d < |s.ring| && (forall t :: t in s.ring ==> t in s.threads)
    && s.threads[s.ring[d]].status == Ready && forall i :: 1 <= i < d ==> s.threads[s.ring[i]].status != Ready
  }

  /** r follows s by handing over: the ring turned to position d, whose thread is RUNNING with a
      full time slice, and with interrupts on exactly when it was not waiting inside sem_P. */
  predicate HandedOver(s: Sys, r: Sys, d: nat) {
    && FirstReady(s, d) && r.ring == s.ring[d..] + s.ring[..d] && r.ring[0] in r.threads
    && r.threads[r.ring[0]].status == Running && r.threads[r.ring[0]].timeLeft == TIME_CONT
    && r.threads[r.ring[0]].pc == s.threads[s.ring[d]].pc
    && (r.iflag <==> s.threads[s.ring[d]].pc == Outside)
  }

  /** Threads that are neither running nor inside sem_P come back with interrupts on. */
  ghost predicate SavedOk(s: Sys) {
    Shaped(s) && forall t :: t in s.threads && t != s.ring[0] && s.threads[t].pc == Outside ==> s.threads[t].saved
  }

  lemma BootSaved(main: Tid, iflag: bool)
    ensures SavedOk(Boot(main, iflag))
  {}

  /** u is s with only the running thread changed. */
  ghost predicate OthersAsIn(s: Sys, u: Sys) {
    && RingOk(s) && u.ring == s.ring && u.threads.Keys == s.threads.Keys
    && forall t :: t in s.threads && t != s.ring[0] ==> u.threads[t] == s.threads[t]
  }

  /** schedule(), from a state in which the others stand as in s. */
  lemma ScheduleHandsOver(s: Sys, u: Sys, resume: bool)
    requires Inv(s) && SavedOk(s) && MaySchedule(u, resume) && OthersAsIn(s, u)
    requires u.threads[s.ring[0]].pc == Outside ==> resume
    ensures SavedOk(Schedule(u, resume)) && (OtherReady(s) ==> exists d :: HandedOver(s, Schedule(u, resume), d))
    ensures !OtherReady(s) ==> Schedule(u, resume).ring == s.ring
  {
    var d := Scan(u.ring, u.threads, 1);
    SamePlaces(s, u);
    if d < |u.ring| {
      SwitchHandsOver(s, u, d, resume);
      SwitchSaved(s, u, d, resume);
      assert HandedOver(s, Schedule(u, resume), d);
    }
  }

  lemma SwitchHandsOver(s: Sys, u: Sys, d: nat, resume: bool)
    requires Inv(s) && SavedOk(s) && AtSchedule(u) && OthersAsIn(s, u) && FirstReady(u, d)
    ensures HandedOver(s, SwitchTo(u, d, resume), d)
  {
    Switched(u, d, resume);
    SamePlaces(s, u);
    assert PcOk(s, s.ring[d]);
  }

  lemma SwitchSaved(s: Sys, u: Sys, d: nat, resume: bool)
    requires SavedOk(s) && AtSchedule(u) && OthersAsIn(s, u) && 1 <= d < |u.ring|
    requires u.threads[s.ring[0]].pc == Outside ==> resume
    ensures SavedOk(SwitchTo(u, d, resume))
  {
    Switched(u, d, resume);
    SwitchRing(u, d, resume);
  }

  /** Behind the running thread the ring holds other threads. */
  lemma SamePlaces(s: Sys, u: Sys)
    requires OthersAsIn(s, u)
    ensures forall i :: 1 <= i < |s.ring| ==> s.ring[i] in s.threads && s.ring[i] != s.ring[0] && u.threads[s.ring[i]] == s.threads[s.ring[i]]
  {
    forall i | 1 <= i < |s.ring| ensures s.ring[i] in s.threads && s.ring[i] != s.ring[0] { assert Differ(s.ring, 0, i); assert s.ring[i] in s.ring; }
  }

  /** A step hands over exactly when it blocks, or is a tick that finds the time slice used up
      and another thread READY. */
  ghost predicate HandsOver(s: Sys, a: Action)
    requires Shaped(s) && Possible(s, a)
  {
    Blocks(s, a) || (a.Tick? && s.threads[s.ring[0]].timeLeft == 0 && OtherReady(s))
  }

  /** Handing over goes to the first READY thread behind the running one, with a full time
      slice and interrupts on unless it waits inside sem_P; every other step leaves the running
      thread where it is. */
  lemma StepHandsOver(s: Sys, a: Action)
    requires Inv(s) && SavedOk(s) && Possible(s, a) && (Blocks(s, a) ==> OtherReady(s))
    ensures SavedOk(Step(s, a))
    ensures if HandsOver(s, a) then exists d :: HandedOver(s, Step(s, a), d) else Step(s, a).ring != [] && Step(s, a).ring[0] == s.ring[0]
  {
    assert PcOk(s, s.ring[0]);
    if Blocks(s, a) {
      BlockHandsOver(s, a);
    } else if a.Tick? {
      TickHandsOver(s);
    } else {
      StaysOn(s, a);
    }
  }

  lemma TickHandsOver(s: Sys)
    requires Inv(s) && SavedOk(s) && s.iflag
    ensures SavedOk(Step(s, Tick))
    ensures if HandsOver(s, Tick) then exists d :: HandedOver(s, Step(s, Tick), d) else Step(s, Tick).ring == s.ring
  {
    assert PcOk(s, s.ring[0]);
    if s.threads[s.ring[0]].timeLeft == 0 { ScheduleHandsOver(s, s, true); }
  }

  lemma BlockHandsOver(s: Sys, a: Action)
    requires Inv(s) && SavedOk(s) && Possible(s, a) && Blocks(s, a) && OtherReady(s)
    ensures SavedOk(Step(s, a)) && exists d :: HandedOver(s, Step(s, a), d)
  {
    assert PcOk(s, s.ring[0]);
    FlagKeeps(s, false);
    var e := Entering(s, a);
    match a
    case P(m) => ParkHandsOver(s, e, m, false, false, s.iflag, s.iflag);
    case Acquire(m) => ParkHandsOver(s, e, m, true, s.iflag, false, s.iflag);
    case Recheck =>
      var pc := s.threads[s.ring[0]].pc;
      ParkHandsOver(s, e, pc.sem, pc.forLock, pc.lockCond, pc.pCond, pc.entry);
  }

  lemma ParkHandsOver(s: Sys, e: Sys, m: SemId, forLock: bool, lockCond: bool, pCond: bool, entry: bool)
    requires Inv(s) && SavedOk(s) && OtherReady(s) && e == s.(iflag := e.iflag)
    requires AtP(e, m, forLock, lockCond, pCond, entry) && e.sems[m].val == 0
    ensures var r := TryP(e, m, forLock, lockCond, pCond, entry); SavedOk(r) && exists d :: HandedOver(s, r, d)
  {
    assert OtherReady(e);
    ParkedMaySchedule(e, m, forLock, lockCond, pCond, entry);
    ScheduleHandsOver(s, Parked(e, m, forLock, lockCond, pCond, entry), false);
  }

  lemma StaysOn(s: Sys, a: Action)
    requires Inv(s) && SavedOk(s) && Possible(s, a) && !Blocks(s, a) && !a.Tick?
    ensures SavedOk(Step(s, a)) && Step(s, a).ring != [] && Step(s, a).ring[0] == s.ring[0]
  {
    StepKeepsInv(s, a);
    var r := Step(s, a);
    forall t | t in r.threads && t != r.ring[0] && r.threads[t].pc == Outside ensures r.threads[t].saved {
      if t in s.threads { OthersKeepSaved(s, a, t); }
    }
  }

  lemma OthersKeepSaved(s: Sys, a: Action, t: Tid)
    requires Inv(s) && Possible(s, a) && !Blocks(s, a) && !a.Tick? && t in s.threads && t != s.ring[0]
    ensures t in Step(s, a).threads && Step(s, a).threads[t].saved == s.threads[t].saved && Step(s, a).threads[t].pc == s.threads[t].pc
  {
    OthersKeepPc(s, a, t);
  }

  // ----- runs

  lemma {:induction false} RunSaved(trace: seq<Sys>, acts: seq<Action>, i: nat)
    requires IsRun(trace, acts) && Inv(trace[0]) && SavedOk(trace[0]) && i < |trace|
    ensures Inv(trace[i]) && SavedOk(trace[i])
  {
    if i > 0 {
      RunSaved(trace, acts, i - 1);
      assert Follows(trace[i - 1], acts[i - 1], trace[i]);
      StepKeepsInv(trace[i - 1], acts[i - 1]);
      StepHandsOver(trace[i - 1], acts[i - 1]);
    }
  }

  predicate RunsAt(s: Sys, t: Tid) { s.ring != [] && s.ring[0] == t }

  /** A thread that stands outside sem_P stays there while others run. */
  lemma {:induction false} StaysOutside(trace: seq<Sys>, acts: seq<Action>, i: nat, j: nat, t: Tid)
    requires IsRun(trace, acts) && Inv(trace[0]) && i <= j < |trace|
    requires t in trace[i].threads && trace[i].threads[t].pc == Outside
    requires forall k :: i <= k < j ==> !RunsAt(trace[k], t)
    ensures t in trace[j].threads && trace[j].threads[t].pc == Outside
  {
    if i < j {
      StaysOutside(trace, acts, i, j - 1, t);
      assert !RunsAt(trace[j - 1], t);
      assert Follows(trace[j - 1], acts[j - 1], trace[j]);
      OthersKeepPc(trace[j - 1], acts[j - 1], t);
    }
  }

  /** A thread preempted by a tick at i is next running at j with interrupts on again, however
      long it has been READY. */
  lemma PreemptedComesBackOn(main: Tid, iflag: bool, trace: seq<Sys>, acts: seq<Action>, i: nat, j: nat, t: Tid)
    requires IsRun(trace, acts) && trace[0] == Boot(main, iflag) && i < j < |trace|
    requires acts[i] == Tick && RunsAt(trace[i], t) && RunsAt(trace[j], t)
    requires i + 1 < j && forall k :: i < k < j ==> !RunsAt(trace[k], t)
    ensures t in trace[j].threads && trace[j].threads[t].status == Running && trace[j].threads[t].pc == Outside && trace[j].iflag
  {
    BootInv(main, iflag);
    BootSaved(main, iflag);
    PreemptedOutside(trace, acts, i, t);
    StaysOutside(trace, acts, i + 1, j, t);
    DispatchedAt(trace, acts, j - 1, t);
  }

  lemma PreemptedOutside(trace: seq<Sys>, acts: seq<Action>, i: nat, t: Tid)
    requires IsRun(trace, acts) && Inv(trace[0]) && i < |acts| && acts[i] == Tick && RunsAt(trace[i], t)
    ensures t in trace[i + 1].threads && trace[i + 1].threads[t].pc == Outside
  {
    RunKeepsInv(trace, acts, i);
    assert Follows(trace[i], acts[i], trace[i + 1]);
    SchedulePc(trace[i], true, t);
  }

  /** Whoever starts to run at k + 1 while outside sem_P runs with interrupts on. */
  lemma DispatchedAt(trace: seq<Sys>, acts: seq<Action>, k: nat, t: Tid)
    requires IsRun(trace, acts) && Inv(trace[0]) && SavedOk(trace[0]) && k < |acts|
    requires !RunsAt(trace[k], t) && RunsAt(trace[k + 1], t)
    requires t in trace[k + 1].threads && trace[k + 1].threads[t].pc == Outside
    ensures trace[k + 1].threads[t].status == Running && trace[k + 1].threads[t].timeLeft == TIME_CONT && trace[k + 1].iflag
  {
    RunSaved(trace, acts, k);
    assert Follows(trace[k], acts[k], trace[k + 1]);
    StepHandsOver(trace[k], acts[k]);
    assert HandsOver(trace[k], acts[k]);
    var d :| HandedOver(trace[k], trace[k + 1], d);
  }

  // ----- time slices

  predicate BlocksAt(s: Sys, a: Action) { Shaped(s) && Possible(s, a) && Blocks(s, a) }

  /** A step that neither blocks nor ends the time slice keeps the running thread, and takes one
      off its slice exactly when it is a tick. */
  lemma KeepsTurn(s: Sys, a: Action)
    requires Shaped(s) && Possible(s, a) && !Blocks(s, a) && (a.Tick? ==> s.threads[s.ring[0]].timeLeft != 0)
    ensures var r, t := Step(s, a), s.ring[0];
            && RunsAt(r, t) && t in r.threads && r.threads[t].timeLeft + IsTick(a) == s.threads[t].timeLeft
            && r.threads[t].timeCounter == s.threads[t].timeCounter + IsTick(a)
  {
    if !a.Create? { SameTurn(s, a); }
  }

  /** A thread that starts its time slice at i keeps the processor through TIME_CONT ticks,
      unless it blocks, has what is left of the slice, and has counted the ticks. */
  lemma {:induction false} FullSlice(trace: seq<Sys>, acts: seq<Action>, i: nat, j: nat, t: Tid)
    requires IsRun(trace, acts) && Inv(trace[0]) && i <= j < |trace|
    requires RunsAt(trace[i], t) && t in trace[i].threads && trace[i].threads[t].timeLeft == TIME_CONT
    requires (forall k :: i <= k < j ==> !BlocksAt(trace[k], acts[k])) && Ticks(acts[i..j]) <= TIME_CONT
    ensures RunsAt(trace[j], t) && t in trace[j].threads && trace[j].threads[t].timeLeft == TIME_CONT - Ticks(acts[i..j])
    ensures trace[j].threads[t].timeCounter == trace[i].threads[t].timeCounter + Ticks(acts[i..j])
  {
    if i < j {
      var k := j - 1;
      TicksUpto(acts, i, k, j);
      FullSlice(trace, acts, i, k, t);
      assert Follows(trace[k], acts[k], trace[k + 1]);
      assert !BlocksAt(trace[k], acts[k]);
      KeepsTurn(trace[k], acts[k]);
    }
  }

  lemma TicksUpto(acts: seq<Action>, i: nat, k: nat, j: nat)
    requires i <= k < |acts| && j == k + 1
    ensures Ticks(acts[i..j]) == Ticks(acts[i..k]) + IsTick(acts[k])
  {
    assert acts[i..j][..k - i] == acts[i..k];
  }

  /** A tick that finds the slice used up and nobody else READY gives the running thread a new one. */
  lemma AloneStartsAgain(s: Sys)
    requires Inv(s) && s.iflag && s.threads[s.ring[0]].timeLeft == 0 && !OtherReady(s)
    ensures Step(s, Tick) == s.(threads := s.threads[s.ring[0] := s.threads[s.ring[0]].(timeLeft := TIME_CONT)])
  {
    assert PcOk(s, s.ring[0]);
    SamePlaces(s, s);
    ScanFails(s, 1);
  }

  // ----- a new thread

  /** A new thread is READY with a full time slice right behind its creator, so it is the next
      to be handed to; the creator runs on with interrupts on, and nothing else changes. */
  lemma NewThreadIsNext(s: Sys, t: Tid)
    requires Inv(s) && Possible(s, Create(t))
    ensures var r := Step(s, Create(t));
            && r.ring[0] == s.ring[0] && FirstReady(r, 1) && r.ring[1] == t && r.ring[2..] == s.ring[1..]
            && r.threads.Keys == s.threads.Keys + {t} && (forall u :: u in s.threads ==> r.threads[u] == s.threads[u])
            && r.threads[t].timeLeft == TIME_CONT && r.threads[t].pc == Outside
            && r.iflag && r.sems == s.sems && r.holder == s.holder
            && (forall q, d :: HandedOver(r, q, d) ==> q.ring[0] == t)
  {
    var r := Step(s, Create(t));
    CreateKeeps(s, t);
    assert r.ring[2..] == s.ring[1..];
    assert r.threads[r.ring[1]].status == Ready;
  }

  // ----- calls without effect

  /** lock_release by anyone but the holder, and lock_acquire by the holder, change nothing. */
  lemma LockCallsWithoutEffect(s: Sys, m: SemId)
    requires Inv(s) && Possible(s, Release(m))
    ensures s.holder[m] != Some(s.ring[0]) ==> Step(s, Release(m)) == s
    ensures s.holder[m] == Some(s.ring[0]) ==> Step(s, Acquire(m)) == s && Step(s, Release(m)).holder == s.holder[m := None]
  {
    StepHolder(s, Release(m), m);
  }
}

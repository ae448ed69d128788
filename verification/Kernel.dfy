/** The thread and synchronisation code over memory: TCBs linked into a ring by `next`,
    wait-queue nodes on the stacks of the blocked threads linked from each semaphore's head.
    Every method does one step of the machine of module Sched. */
module Kernel {
  import opened Machine
  import opened Sequences
  import opened Wrappers
  import opened Sched
  import opened SchedInv
  import opened SchedRuns
  import opened SchedLaws

  /** A TCB: the scheduling fields, the saved context, and the ring link. */
  datatype Tcb = Tcb(thread: Thread, next: Tid)

  /** A wait-queue node; it lives in the frame of sem_P of thread `thread`, whose TCB address names it. */
  datatype Node = Node(thread: Tid, next: Option<Tid>)

  datatype SemT = SemT(val: nat, head: Option<Tid>)

  function Succ(i: nat, n: nat): nat { if i + 1 == n then 0 else i + 1 }

  /** Following `next` goes once round the ring. */
  ghost predicate Cycle(tcb: map<Tid, Tcb>, ring: seq<Tid>) {
    ring != [] && Distinct(ring) && forall i :: 0 <= i < |ring| ==> LinkedTo(tcb, ring, i)
  }

  predicate LinkedTo(tcb: map<Tid, Tcb>, ring: seq<Tid>, i: nat)
    requires i < |ring|
  {
    ring[i] in tcb && tcb[ring[i]].next == ring[Succ(i, |ring|)]
  }

  function At(q: seq<Tid>, i: nat): Option<Tid> { if i < |q| then Some(q[i]) else None }

  /** The nodes from `head` on are those of the threads in q, in order, and end at NULL. */
  ghost predicate NodesOf(node: map<Tid, Node>, head: Option<Tid>, q: seq<Tid>) {
    head == At(q, 0) && forall i :: 0 <= i < |q| ==> q[i] in node && node[q[i]] == Node(q[i], At(q, i + 1))
  }

  lemma RotatedCycle(tcb: map<Tid, Tcb>, ring: seq<Tid>, d: nat)
    requires Cycle(tcb, ring) && d < |ring|
    ensures Cycle(tcb, ring[d..] + ring[..d])
  {
    var r, n := ring[d..] + ring[..d], |ring|;
    Rotated(ring, d);
    forall i | 0 <= i < n ensures LinkedTo(tcb, r, i) {
      assert LinkedTo(tcb, ring, if i < n - d then i + d else i - (n - d));
    }
  }

  lemma CycleFrame(tcb: map<Tid, Tcb>, tcb': map<Tid, Tcb>, ring: seq<Tid>)
    requires Cycle(tcb, ring) && tcb'.Keys == tcb.Keys && forall t :: t in tcb ==> tcb'[t].next == tcb[t].next
    ensures Cycle(tcb', ring)
  {
    forall i | 0 <= i < |ring| ensures LinkedTo(tcb', ring, i) { assert LinkedTo(tcb, ring, i); }
  }

  lemma CycleInsert(tcb: map<Tid, Tcb>, ring: seq<Tid>, t: Tid, th: Thread)
    requires Cycle(tcb, ring) && t !in tcb
    ensures var r := [ring[0], t] + ring[1..];
            ring[0] in tcb && Cycle(tcb[ring[0] := tcb[ring[0]].(next := t)][t := Tcb(th, tcb[ring[0]].next)], r)
  {
    assert LinkedTo(tcb, ring, 0);
    var r := [ring[0], t] + ring[1..];
    var m := tcb[ring[0] := tcb[ring[0]].(next := t)][t := Tcb(th, tcb[ring[0]].next)];
    forall i, j | 0 <= i < j < |r| ensures Differ(r, i, j) {
      if i == 1 {
        assert LinkedTo(tcb, ring, j - 1);
      } else if j != 1 {
        assert Differ(ring, if i == 0 then 0 else i - 1, j - 1);
      }
    }
    forall i | 0 <= i < |r| ensures LinkedTo(m, r, i) {
      if i >= 2 {
        assert LinkedTo(tcb, ring, i - 1) && Differ(ring, 0, i - 1);
      }
    }
  }

  lemma NodesFrame(node: map<Tid, Node>, node': map<Tid, Node>, head: Option<Tid>, q: seq<Tid>)
    requires NodesOf(node, head, q) && forall t :: t in q && t in node ==> t in node' && node'[t] == node[t]
    ensures NodesOf(node', head, q)
  {
    forall i | 0 <= i < |q| ensures q[i] in node' && node'[q[i]] == Node(q[i], At(q, i + 1)) { assert q[i] in q; }
  }

  // ----- the steps of sem_V and of the end of sem_P, put together

  function CountV(sem: Sem): Sem { sem.(val := (sem.val + 1) % WORD, vs := sem.vs + 1) }

  function CountP(sem: Sem): Sem
    requires sem.val > 0
  {
    sem.(val := sem.val - 1, ps := sem.ps + 1)
  }

  /** The first waiter, if any, off the queue and READY. */
  function Woke(s: Sys, m: SemId): Sys
    requires m in s.sems && (s.sems[m].queue != [] ==> s.sems[m].queue[0] in s.threads)
  {
    var q := s.sems[m].queue;
    if q == [] then s
    else s.(sems := s.sems[m := s.sems[m].(queue := q[1..])],
            threads := s.threads[q[0] := s.threads[q[0]].(status := Ready)])
  }

  lemma VSteps(s: Sys, m: SemId)
    requires Shaped(s) && m in s.sems && (s.sems[m].queue != [] ==> s.sems[m].queue[0] in s.threads)
    ensures var w := Woke(s.(iflag := false), m);
            DoV(s, m) == w.(sems := w.sems[m := CountV(w.sems[m])]).(iflag := s.iflag)
  {}

  lemma PSteps(s: Sys, m: SemId, forLock: bool, lockCond: bool, pCond: bool, entry: bool)
    requires Shaped(s) && m in s.sems && s.sems[m].val > 0 && (forLock ==> m in s.holder)
    ensures var t := s.(sems := s.sems[m := CountP(s.sems[m])]).(iflag := pCond);
            var u := t.(threads := t.threads[s.ring[0] := t.threads[s.ring[0]].(pc := Outside)]);
            TryP(s, m, forLock, lockCond, pCond, entry) ==
            if forLock then u.(holder := u.holder[m := Some(s.ring[0])]).(iflag := lockCond) else u
  {}

  /** The new TCB t behind cur: READY, with a full time slice, to start with interrupts on. */
  predicate Inserted(before: map<Tid, Tcb>, after: map<Tid, Tcb>, cur: Tid, t: Tid) {
    && cur in before && t !in before && after.Keys == before.Keys + {t}
    && after[cur].next == t && after[t].next == before[cur].next
    && after[t].thread == Thread(Ready, TIME_CONT, 0, Outside, true)
    && forall u :: u in before ==> after[u].thread == before[u].thread && (u != cur ==> after[u].next == before[u].next)
  }

  /** No thread on the queue of m is on another queue. */
  ghost predicate QueuesApart(s: Sys, m: SemId)
    requires m in s.sems
  {
    forall k, t {:trigger t in s.sems[k].queue} :: k in s.sems && k != m && t in s.sems[k].queue ==> t !in s.sems[m].queue
  }

  class Kernel {
    const main: Tid
    var cur: Tid                              // cur_tcb
    var tcb: map<Tid, Tcb>
    var node: map<Tid, Node>
    var sem: map<SemId, SemT>
    var holder: map<SemId, Option<Tid>>
    var iflag: bool                           // the IF bit of eflags
    ghost var sys: Sys

    ghost predicate ThreadsOk()
      reads this
    {
      && Shaped(sys) && main == sys.main && cur == sys.ring[0] && holder == sys.holder && iflag == sys.iflag
      && tcb.Keys == sys.threads.Keys && (forall t :: t in tcb ==> tcb[t].thread == sys.threads[t])
      && Cycle(tcb, sys.ring)
    }

    ghost predicate QueuesLinked()
      reads this
    {
      && sem.Keys == sys.sems.Keys
      && (forall m :: m in sem ==> sem[m].val == sys.sems[m].val && NodesOf(node, sem[m].head, sys.sems[m].queue))
    }

    /** The memory is a picture of `sys`. */
    ghost predicate Linked()
      reads this
    {
      ThreadsOk() && QueuesLinked()
    }

    ghost predicate Valid()
      reads this
    {
      Linked() && Inv(sys)
    }

    constructor (main: Tid, iflag: bool)
      ensures Valid() && sys == Boot(main, iflag) && cur == main && this.iflag == iflag && sem == map[] && holder == map[]
      ensures tcb == map[main := Tcb(Thread(Running, TIME_CONT, 0, Outside, true), main)]
    {
      this.main, cur, this.iflag := main, main, iflag;
      tcb := map[main := Tcb(Thread(Running, TIME_CONT, 0, Outside, true), main)];
      node, sem, holder := map[], map[], map[];
      sys := Boot(main, iflag);
      new;
      BootInv(main, iflag);
      assert Cycle(tcb, sys.ring);
    }

    /** The loop of schedule(): once round the ring until a READY thread other than the
        running one turns up. */
    method FindReady() returns (probe: Tid, ghost d: nat)
      requires ThreadsOk()
      ensures d == Scan(sys.ring, sys.threads, 1)
      ensures var e := Scan(sys.ring, sys.threads, 1); probe == if e == |sys.ring| then cur else sys.ring[e]
      ensures probe == cur <==> Scan(sys.ring, sys.threads, 1) == |sys.ring|
    {
      ghost var ring := sys.ring;
      d := 0;
      probe := cur;
      while true
        invariant d < |ring| && probe == ring[d]
        invariant Scan(ring, sys.threads, 1) == Scan(ring, sys.threads, d + 1)
        decreases |ring| - d
      {
        assert LinkedTo(tcb, ring, d);
        probe := tcb[probe].next;
        d := d + 1;
        if probe == cur {
          if d < |ring| { OnlyOnce(ring, 0, d); }
          return;
        } else if tcb[probe].thread.status == Ready {
          return;
        }
      }
    }

    /** schedule(): keep the running thread going, or switch to the next READY one. */
    method Schedule(resume: bool)
      requires Linked()
      modifies this
      ensures Linked() && sys == Sched.Schedule(old(sys), resume)
    {
      ghost var d;
      var probe;
      probe, d := FindReady();
      if probe == cur {
        var now := tcb[cur].thread;
        if now.status != Ready && now.status != Running {
          now := now.(status := Running);
        }
        SetThread(cur, now.(timeLeft := TIME_CONT));
      } else {
        SwitchTo(probe, d, resume);
      }
    }

    method SwitchTo(probe: Tid, ghost d: nat, resume: bool)
      requires Linked() && 1 <= d < |sys.ring| && probe == sys.ring[d] && probe != cur
      modifies this
      ensures Linked() && sys == Sched.SwitchTo(old(sys), d, resume)
    {
      assert LinkedTo(tcb, sys.ring, d) && LinkedTo(tcb, sys.ring, 0);
      var now, next := tcb[cur].thread, tcb[probe].thread;
      if now.status == Running { now := now.(status := Ready); }
      SetThread(cur, now.(saved := resume));
      SetThread(probe, next.(status := Running, timeLeft := TIME_CONT));
      Dispatch(probe, next.saved, d);
    }

    method Dispatch(probe: Tid, flag: bool, ghost d: nat)
      requires Linked() && d < |sys.ring| && probe == sys.ring[d]
      modifies `cur, `iflag, `sys
      ensures Linked() && sys == old(sys).(ring := old(sys.ring)[d..] + old(sys.ring)[..d], iflag := flag)
    {
      RotatedCycle(tcb, sys.ring, d);
      Rotated(sys.ring, d);
      cur := probe;
      iflag := flag;
      sys := sys.(ring := sys.ring[d..] + sys.ring[..d], iflag := flag);
    }

    method SetThread(t: Tid, th: Thread)
      requires Linked() && t in tcb
      modifies `tcb, `sys
      ensures Linked() && tcb.Keys == old(tcb.Keys) && sys == old(sys).(threads := old(sys.threads)[t := th])
    {
      ghost var before := tcb;
      tcb := tcb[t := tcb[t].(thread := th)];
      sys := sys.(threads := sys.threads[t := th]);
      CycleFrame(before, tcb, sys.ring);
    }

    // ----- wait queues

    /** sync_tool_add: the running thread's node goes to the end of the queue. */
    method QueueAdd(m: SemId, t: Tid)
      requires Linked() && m in sem && Distinct(sys.sems[m].queue) && QueuesApart(sys, m)
      requires forall k :: k in sem ==> t !in sys.sems[k].queue
      modifies `node, `sem, `sys
      ensures Linked()
      ensures sys == old(sys).(sems := old(sys.sems)[m := old(sys.sems[m]).(queue := old(sys.sems[m].queue) + [t])])
    {
      ghost var q, before := sys.sems[m].queue, node;
      node := node[t := Node(t, None)];
      if sem[m].head == None {
        sem := sem[m := sem[m].(head := Some(t))];
      } else {
        NodesFrame(before, node, sem[m].head, q);
        var probe := LastNode(sem[m].head.value, q);
        node := node[probe := node[probe].(next := Some(t))];
      }
      NodesAppend(before, node, old(sem[m].head), q, t);
      Requeued(m, q + [t], before);
    }

    /** The walk to the end of a queue. */
    method LastNode(head: Tid, ghost q: seq<Tid>) returns (probe: Tid)
      requires NodesOf(node, Some(head), q)
      ensures q != [] && probe == q[|q| - 1] && probe in node && node[probe] == Node(probe, None)
    {
      probe := head;
      ghost var i := 0;
      while node[probe].next != None
        invariant i < |q| && probe == q[i] && probe in node
        decreases |q| - i
      {
        probe := node[probe].next.value;
        i := i + 1;
      }
    }

    /** The queue of m has changed to q; the nodes of the other queues are as before. */
    ghost method Requeued(m: SemId, q: seq<Tid>, before: map<Tid, Node>)
      requires ThreadsOk() && sem.Keys == sys.sems.Keys && m in sem
      requires sem[m].val == sys.sems[m].val && NodesOf(node, sem[m].head, q)
      requires forall k :: k in sem && k != m ==> sem[k].val == sys.sems[k].val && NodesOf(before, sem[k].head, sys.sems[k].queue)
      requires forall k, t :: k in sem && k != m && t in sys.sems[k].queue && t in before ==> t in node && node[t] == before[t]
      modifies `sys
      ensures Linked() && sys == old(sys).(sems := old(sys.sems)[m := old(sys.sems[m]).(queue := q)])
    {
      forall k | k in sem && k != m ensures NodesOf(node, sem[k].head, sys.sems[k].queue) {
        NodesFrame(before, node, sem[k].head, sys.sems[k].queue);
      }
      sys := sys.(sems := sys.sems[m := sys.sems[m].(queue := q)]);
    }

    /** sync_tool_get: unlink the first node, if there is one. */
    method QueueGet(m: SemId) returns (r: Option<Node>)
      requires Linked() && m in sem && Distinct(sys.sems[m].queue) && QueuesApart(sys, m)
      modifies `node, `sem, `sys
      ensures Linked()
      ensures var q := old(sys.sems[m].queue);
              if q == [] then r == None && sys == old(sys)
              else r == Some(Node(q[0], None)) && sys == old(sys).(sems := old(sys.sems)[m := old(sys.sems[m]).(queue := q[1..])])
    {
      ghost var q, before := sys.sems[m].queue, node;
      if sem[m].head == None { return None; }
      var probe := sem[m].head.value;
      sem := sem[m := sem[m].(head := node[probe].next)];
      node := node[probe := node[probe].(next := None)];
      r := Some(node[probe]);
      NodesTail(before, node, old(sem[m].head), q);
      assert q[0] in q;
      Requeued(m, q[1..], before);
    }

    method QueueIsEmpty(m: SemId) returns (empty: bool)
      requires Linked() && m in sem
      ensures empty <==> sys.sems[m].queue == []
    {
      empty := sem[m].head == None;
    }

    // ----- the interrupt flag

    method CliCondition() returns (condition: bool)
      requires Linked()
      modifies `iflag, `sys
      ensures Linked() && condition == old(sys.iflag) && sys == old(sys).(iflag := false)
    {
      condition := iflag;
      SetFlag(false);
    }

    method StiCondition(condition: bool)
      requires Linked()
      modifies `iflag, `sys
      ensures Linked() && sys == old(sys).(iflag := condition)
    {
      if condition { SetFlag(true); } else { SetFlag(false); }
    }

    method SetFlag(f: bool)
      requires Linked()
      modifies `iflag, `sys
      ensures Linked() && sys == old(sys).(iflag := f)
    {
      iflag := f;
      sys := sys.(iflag := f);
    }

    method SetVal(m: SemId, val: nat, ghost counted: Sem)
      requires Linked() && m in sem && counted.val == val && counted.queue == sys.sems[m].queue
      modifies `sem, `sys
      ensures Linked() && sys == old(sys).(sems := old(sys.sems)[m := counted])
    {
      sem := sem[m := sem[m].(val := val)];
      sys := sys.(sems := sys.sems[m := counted]);
    }

    method SetHolder(m: SemId, h: Option<Tid>)
      requires Linked()
      modifies `holder, `sys
      ensures Linked() && sys == old(sys).(holder := old(sys.holder)[m := h])
    {
      holder := holder[m := h];
      sys := sys.(holder := sys.holder[m := h]);
    }

    // ----- semaphores and locks

    /** thread_block, entered from the loop of sem_P with its conditions on the stack. */
    method ThreadBlock(m: SemId, forLock: bool, lockCond: bool, pCond: bool, entry: bool)
      requires Linked()
      modifies this
      ensures var s, c := old(sys), old(sys).ring[0];
              && Linked()
              && sys == Sched.Schedule(s.(iflag := false,
                   threads := s.threads[c := s.threads[c].(status := Blocked, pc := InP(m, forLock, lockCond, pCond, s.iflag, entry))]), false)
    {
      var condition := CliCondition();
      SetThread(cur, tcb[cur].thread.(status := Blocked, pc := InP(m, forLock, lockCond, pCond, condition, entry)));
      Schedule(false);
    }

    /** One turn of the loop of sem_P, and the way out through the calls it is nested in. */
    method SemPTurn(m: SemId, forLock: bool, lockCond: bool, pCond: bool, entry: bool)
      requires Linked() && AtP(sys, m, forLock, lockCond, pCond, entry)
      modifies this
      ensures Linked() && sys == TryP(old(sys), m, forLock, lockCond, pCond, entry)
    {
      if sem[m].val == 0 {
        NotQueued(sys, m);
        QueueAdd(m, cur);
        ThreadBlock(m, forLock, lockCond, pCond, entry);
      } else {
        Take(m, forLock, lockCond, pCond, entry);
      }
    }

    method Take(m: SemId, forLock: bool, lockCond: bool, pCond: bool, entry: bool)
      requires Linked() && m in sem && sem[m].val > 0 && (forLock ==> m in holder)
      modifies this
      ensures Linked() && sys == TryP(old(sys), m, forLock, lockCond, pCond, entry)
    {
      PSteps(sys, m, forLock, lockCond, pCond, entry);
      SetVal(m, sem[m].val - 1, CountP(sys.sems[m]));
      StiCondition(pCond);
      SetThread(cur, tcb[cur].thread.(pc := Outside));
      if forLock {
        SetHolder(m, Some(cur));
        StiCondition(lockCond);
      }
    }

    method ThreadWakeup(t: Tid)
      requires Linked() && t in tcb
      modifies `tcb, `iflag, `sys
      ensures Linked() && sys == old(sys).(threads := old(sys.threads)[t := old(sys.threads[t]).(status := Ready)])
    {
      var condition := CliCondition();
      SetThread(t, tcb[t].thread.(status := Ready));
      StiCondition(condition);
    }

    /** Get the first waiter, if any, and wake it up. */
    method WakeOne(m: SemId)
      requires Linked() && m in sem && Distinct(sys.sems[m].queue) && QueuesApart(sys, m)
      requires sys.sems[m].queue != [] ==> sys.sems[m].queue[0] in sys.threads
      modifies this
      ensures Linked() && sys == Woke(old(sys), m)
    {
      var empty := QueueIsEmpty(m);
      if !empty {
        var n := QueueGet(m);
        if n != None { ThreadWakeup(n.value.thread); }
      }
    }

    method SemV(m: SemId)
      requires Linked() && QueuesOk(sys) && m in sem
      modifies this
      ensures Linked() && sys == DoV(old(sys), m)
      ensures m in sem && sem[m].val == (old(sem[m].val) + 1) % WORD && iflag == old(iflag)
    {
      QueueFacts(sys, m);
      VSteps(sys, m);
      var condition := CliCondition();
      WakeOne(m);
      SetVal(m, (sem[m].val + 1) % WORD, CountV(sys.sems[m]));
      StiCondition(condition);
    }

    // ----- the steps

    method TimerServer()
      requires Linked() && Possible(sys, Tick)
      modifies this
      ensures Linked() && sys == Step(old(sys), Tick)
    {
      var now := tcb[cur].thread;
      if now.timeLeft != 0 {
        SetThread(cur, now.(timeLeft := now.timeLeft - 1, timeCounter := now.timeCounter + 1));
      } else {
        Schedule(true);
      }
    }

    method Timer()
      requires Valid() && Possible(sys, Tick)
      modifies this
      ensures Valid() && sys == Step(old(sys), Tick)
      ensures old(tcb[cur].thread.timeLeft) != 0 ==>
                cur == old(cur) && tcb[cur].thread.timeLeft == old(tcb[cur].thread.timeLeft) - 1
                && tcb[cur].thread.timeCounter == old(tcb[cur].thread.timeCounter) + 1
      ensures cur != old(cur) ==> tcb[old(cur)].thread.status == Ready && tcb[old(cur)].thread.saved && tcb[cur].thread.timeLeft == TIME_CONT
    {
      StepKeepsInv(sys, Tick);
      TickEffect(sys);
      TimerServer();
    }

    method SemP(m: SemId)
      requires Valid() && Possible(sys, P(m))
      modifies this
      ensures Linked() && sys == Step(old(sys), P(m))
      ensures !Blocks(old(sys), P(m)) ==> m in sem && sem[m].val == old(sem[m].val) - 1 && iflag == old(iflag)
      ensures Valid() <==> (Blocks(old(sys), P(m)) ==> OtherReady(old(sys)))
    {
      ghost var s := sys;
      StepVal(s, P(m), m);
      StepKeepsInvIff(s, P(m));
      FlagKeeps(s, false);
      var condition := CliCondition();
      SemPTurn(m, false, false, condition, condition);
    }

    method Signal(m: SemId)
      requires Valid() && Possible(sys, V(m))
      modifies this
      ensures Valid() && sys == Step(old(sys), V(m))
      ensures m in sem && sem[m].val == (old(sem[m].val) + 1) % WORD && iflag == old(iflag)
    {
      ghost var s := sys;
      SemV(m);
      StepKeepsInv(s, V(m));
    }

    method LockAcquire(m: SemId)
      requires Valid() && Possible(sys, Acquire(m))
      modifies this
      ensures Linked() && sys == Step(old(sys), Acquire(m))
      ensures Valid() <==> (Blocks(old(sys), Acquire(m)) ==> OtherReady(old(sys)))
    {
      ghost var s := sys;
      StepKeepsInvIff(s, Acquire(m));
      FlagKeeps(s, false);
      var condition := CliCondition();
      if holder[m] != Some(cur) {
        var inner := CliCondition();
        SemPTurn(m, true, condition, inner, condition);
      } else {
        StiCondition(condition);
      }
    }

    method DropLock(m: SemId)
      requires Linked() && QueuesOk(sys) && Possible(sys, Release(m))
      modifies this
      ensures Linked() && sys == Step(old(sys), Release(m))
    {
      ghost var s := sys;
      var condition := CliCondition();
      if holder[m] == Some(cur) {
        SetHolder(m, None);
        HolderQueues(s, m);
        SemV(m);
        VKeepsFlag(s.(holder := s.holder[m := None]), m, condition);
      }
      StiCondition(condition);
    }

    method LockRelease(m: SemId)
      requires Valid() && Possible(sys, Release(m))
      modifies this
      ensures Valid() && sys == Step(old(sys), Release(m))
      ensures old(holder)[m] != Some(old(cur)) ==> sys == old(sys)
    {
      StepKeepsInv(sys, Release(m));
      DropLock(m);
    }

    /** A woken thread resumes behind the schedule() of thread_block. */
    method Resume()
      requires Valid() && Possible(sys, Recheck)
      modifies this
      ensures Linked() && sys == Step(old(sys), Recheck)
      ensures Valid() <==> (Blocks(old(sys), Recheck) ==> OtherReady(old(sys)))
    {
      ghost var s := sys;
      StepKeepsInvIff(s, Recheck);
      assert PcOk(s, s.ring[0]);
      FlagKeeps(s, false);
      var pc := tcb[cur].thread.pc;
      StiCondition(pc.blockCond);
      SemPTurn(pc.sem, pc.forLock, pc.lockCond, pc.pCond, pc.entry);
    }

    /** create_thread: the new TCB goes into the ring behind the running thread. */
    method InsertThread(t: Tid)
      requires Linked() && Possible(sys, Create(t))
      modifies this
      ensures Linked() && sys == Step(old(sys), Create(t))
      ensures cur == old(cur) && iflag && Inserted(old(tcb), tcb, cur, t)
    {
      iflag := false;
      sys := sys.(iflag := false);
      LinkThread(t);
      SetFlag(true);
    }

    method LinkThread(t: Tid)
      requires Linked() && t !in tcb
      modifies `tcb, `sys
      ensures Linked() && Inserted(old(tcb), tcb, cur, t)
      ensures sys == old(sys).(ring := [old(cur), t] + old(sys).ring[1..],
                               threads := old(sys).threads[t := Thread(Ready, TIME_CONT, 0, Outside, true)])
    {
      CycleInsert(tcb, sys.ring, t, Thread(Ready, TIME_CONT, 0, Outside, true));
      var next := tcb[cur].next;
      tcb := tcb[cur := tcb[cur].(next := t)];
      tcb := tcb[t := Tcb(Thread(Ready, TIME_CONT, 0, Outside, true), next)];
      sys := sys.(ring := [cur, t] + sys.ring[1..], threads := sys.threads[t := Thread(Ready, TIME_CONT, 0, Outside, true)]);
    }

    method CreateThread(t: Tid)
      requires Valid() && Possible(sys, Create(t))
      modifies this
      ensures Valid() && sys == Step(old(sys), Create(t))
      ensures cur == old(cur) && iflag && Inserted(old(tcb), tcb, cur, t)
    {
      StepKeepsInv(sys, Create(t));
      InsertThread(t);
    }

    /** sem_init: an empty queue and the initial value. */
    method AddSem(m: SemId, val: nat)
      requires Linked() && m !in sys.sems
      modifies `sem, `sys
      ensures sem == old(sem)[m := SemT(val, None)]
      ensures Linked() && sys == old(sys).(sems := old(sys.sems)[m := Sem(val, [], val, 0, 0)])
    {
      sem := sem[m := SemT(val, None)];
      sys := sys.(sems := sys.sems[m := Sem(val, [], val, 0, 0)]);
    }

    method NewSem(m: SemId, val: nat)
      requires Valid() && Possible(sys, SemInit(m, val))
      modifies this
      ensures Valid() && sys == Step(old(sys), SemInit(m, val))
      ensures sem == old(sem)[m := SemT(val, None)] && iflag == old(iflag)
    {
      StepKeepsInv(sys, SemInit(m, val));
      AddSem(m, val);
    }

    method NewLock(m: SemId)
      requires Valid() && Possible(sys, LockInit(m))
      modifies this
      ensures Valid() && sys == Step(old(sys), LockInit(m))
      ensures sem == old(sem)[m := SemT(1, None)] && holder == old(holder)[m := None] && iflag == old(iflag)
    {
      StepKeepsInv(sys, LockInit(m));
      AddSem(m, 1);
      SetHolder(m, None);
    }
  }

  lemma QueueFacts(s: Sys, m: SemId)
    requires Shaped(s) && QueuesOk(s) && m in s.sems
    ensures Distinct(s.sems[m].queue) && QueuesApart(s, m)
    ensures s.sems[m].queue != [] ==> s.sems[m].queue[0] in s.threads
  {
    forall k, t | k in s.sems && k != m && t in s.sems[k].queue ensures t !in s.sems[m].queue {
      assert WaitsFor(s, t, k);
    }
    if s.sems[m].queue != [] { VHead(s, m); }
  }

  /** What a tick does to the running thread, and to the one it hands over to. */
  lemma TickEffect(s: Sys)
    requires Inv(s) && s.iflag
    ensures var r, t := Step(s, Tick), s.ring[0];
            && t in r.threads && r.ring != [] && r.ring[0] in r.threads
            && (s.threads[t].timeLeft != 0 ==> r.ring[0] == t && r.threads[t].timeLeft == s.threads[t].timeLeft - 1 && r.threads[t].timeCounter == s.threads[t].timeCounter + 1)
            && (r.ring[0] != t ==> r.threads[t].status == Ready && r.threads[t].saved && r.threads[r.ring[0]].timeLeft == TIME_CONT)
  {
    var d := Scan(s.ring, s.threads, 1);
    if s.threads[s.ring[0]].timeLeft == 0 && d < |s.ring| { Switched(s, d, true); }
  }

  /** The running thread is on no queue. */
  lemma NotQueued(s: Sys, m: SemId)
    requires Inv(s) && m in s.sems
    ensures Distinct(s.sems[m].queue) && QueuesApart(s, m)
    ensures forall k :: k in s.sems ==> s.ring[0] !in s.sems[k].queue
  {
    QueueFacts(s, m);
  }

  lemma VKeepsFlag(s: Sys, m: SemId, f: bool)
    requires Shaped(s) && m in s.sems
    ensures DoV(s.(iflag := false), m).(iflag := f) == DoV(s.(iflag := f), m)
  {}

  lemma HolderQueues(s: Sys, m: SemId)
    requires QueuesOk(s)
    ensures QueuesOk(s.(holder := s.holder[m := None], iflag := false))
  {
    var r := s.(holder := s.holder[m := None], iflag := false);
    forall k, t | k in r.sems && t in r.sems[k].queue ensures WaitsFor(r, t, k) { assert WaitsFor(s, t, k); }
    forall t | t in r.threads && r.threads[t].status == Blocked ensures Queued(r, t) { assert Queued(s, t); }
  }

  lemma NodesAppend(before: map<Tid, Node>, node: map<Tid, Node>, head: Option<Tid>, q: seq<Tid>, t: Tid)
    requires NodesOf(before, head, q) && Distinct(q) && t !in q
    requires t in node && node[t] == Node(t, None)
    requires q != [] ==> q[|q| - 1] in node && node[q[|q| - 1]] == Node(q[|q| - 1], Some(t))
    requires forall i :: 0 <= i < |q| - 1 ==> q[i] in node && node[q[i]] == before[q[i]]
    ensures NodesOf(node, At(q + [t], 0), q + [t])
  {
    var r := q + [t];
    forall i | 0 <= i < |r| ensures r[i] in node && node[r[i]] == Node(r[i], At(r, i + 1)) {
      if i < |q| { assert r[i] == q[i]; }
    }
  }

  lemma NodesTail(before: map<Tid, Node>, node: map<Tid, Node>, head: Option<Tid>, q: seq<Tid>)
    requires NodesOf(before, head, q) && Distinct(q) && q != []
    requires node == before[q[0] := before[q[0]].(next := None)]
    ensures NodesOf(node, At(q, 1), q[1..])
  {
    var r := q[1..];
    forall i | 0 <= i < |r| ensures r[i] in node && node[r[i]] == Node(r[i], At(r, i + 1)) {
      assert Differ(q, 0, i + 1);
    }
  }
}

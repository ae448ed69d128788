/** The two memory managers together: kernel virtual memory asks the physical memory manager
    for its frames, other callers take blocks of pages, and nothing is given back. Every
    answer is then a frame not in use, which the runs of VmRuns take as given. */
module MemoryRuns {
  import opened Wrappers
  import opened Blocks
  import Buddy
  import opened BuddyOps
  import B = BuddyRuns
  import opened Paging
  import opened Vm
  import opened VmInv
  import V = VmRuns

  datatype State = State(pool: Buddy.Pool, vm: Vm)

  /** A step of kernel virtual memory, or another caller's request for n pages. */
  datatype Step = Kernel(op: V.Op) | Other(n: nat)

  // ----- answers

  /** An answer is the frame of the page that pmm_alloc_one_page hands out, with page 0 in
      frame `base`; one that is not asked for counts as None. */
  predicate Answers(base: nat, p: Buddy.Pool, answer: Option<nat>)
    requires |p.lists| == LISTS
  {
    answer.Some? ==> AllocOne(p).1.Some? && answer.value == base + AllocOne(p).1.value.page
  }

  function After(p: Buddy.Pool, answer: Option<nat>): (q: Buddy.Pool)
    requires |p.lists| == LISTS
    ensures |q.lists| == LISTS
  {
    if answer == None then p else AllocOne(p).0
  }

  function Frames(answer: Option<nat>): set<nat> { if answer == None then {} else {answer.value} }

  /** The answers of a step, in the order they are asked for. */
  function First(op: V.Op): Option<nat> {
    match op
    case Alloc(_, answer) => answer
    case AllocOne(_, answer) => answer
    case NewDir(_, answer) => answer
    case UserPage(_, _, _, _, tableFrame, _) => tableFrame
    case _ => None
  }

  function Second(op: V.Op): Option<nat> { if op.UserPage? then op.page else None }

  ghost predicate Follows(base: nat, s: State, step: Step, t: State) {
    && |s.pool.lists| == LISTS
    && match step
       case Other(n) => t == s.(pool := AllocPages(s.pool, n).0)
       case Kernel(op) =>
         && Answers(base, s.pool, First(op)) && Answers(base, After(s.pool, First(op)), Second(op))
         && V.Allowed(s.vm, op)
         && t == State(After(After(s.pool, First(op)), Second(op)), V.Apply(s.vm, op))
  }

  ghost predicate IsRun(base: nat, trace: seq<State>, steps: seq<Step>) {
    |trace| == |steps| + 1 && forall i :: 0 <= i < |steps| ==> Follows(base, trace[i], steps[i], trace[i + 1])
  }

  // ----- frames in use are not free pages

  ghost predicate FramesHeld(base: nat, s: State) {
    && Buddy.Inv(s.pool) && base + s.pool.max <= 0x10_0000
    && forall f :: f in s.vm.used ==> !B.IsFree(s.pool, f - base)
  }

  /** One answer: the frame is not in use, and taking it keeps frames in use apart from free pages. */
  lemma AnswerFresh(base: nat, s: State, answer: Option<nat>, t: State)
    requires FramesHeld(base, s) && Answers(base, s.pool, answer)
    requires t == State(After(s.pool, answer), s.vm.(used := s.vm.used + Frames(answer)))
    ensures Fresh(s.vm, answer) && FramesHeld(base, t)
  {
    if answer.Some? {
      PageTaken(base, s.pool, answer.value);
      forall f | f in t.vm.used ensures !B.IsFree(t.pool, f - base) { StillHeld(s.pool, f - base, answer.value - base); }
    }
  }

  lemma PageTaken(base: nat, p: Buddy.Pool, f: nat)
    requires Buddy.Inv(p) && base + p.max <= 0x10_0000 && Answers(base, p, Some(f))
    ensures var q := AllocOne(p).0; Buddy.Inv(q) && q.max == p.max && B.IsFree(p, f - base) && f < 0x10_0000
  {
    B.AllocOneTakes(p, f - base);
    B.FreeIsComplement(p, f - base);
  }

  lemma StillHeld(p: Buddy.Pool, x: int, page: int)
    requires Buddy.Inv(p) && AllocOne(p).1.Some? && AllocOne(p).1.value.page == page && (!B.IsFree(p, x) || x == page)
    ensures !B.IsFree(AllocOne(p).0, x)
  {
    B.AllocOneTakes(p, x);
  }

  /** A step puts nothing but its answers to use. */
  lemma UsedGrows(vm: Vm, op: V.Op)
    requires V.Allowed(vm, op)
    ensures V.Apply(vm, op).used <= vm.used + Frames(First(op)) + Frames(Second(op))
  {}

  /** Every step gets fresh frames, and keeps frames in use apart from free pages. */
  lemma StepFresh(base: nat, s: State, step: Step, t: State)
    requires FramesHeld(base, s) && Follows(base, s, step, t)
    ensures FramesHeld(base, t) && (step.Kernel? ==> V.Legal(s.vm, step.op))
  {
    match step
    case Other(n) => OtherKeeps(base, s, n, t);
    case Kernel(op) =>
      var a, b := First(op), Second(op);
      var u := State(After(s.pool, a), s.vm.(used := s.vm.used + Frames(a)));
      var w := State(After(u.pool, b), u.vm.(used := u.vm.used + Frames(b)));
      AnswerFresh(base, s, a, u);
      AnswerFresh(base, u, b, w);
      UsedGrows(s.vm, op);
  }

  lemma OtherKeeps(base: nat, s: State, n: nat, t: State)
    requires FramesHeld(base, s) && t == s.(pool := AllocPages(s.pool, n).0)
    ensures FramesHeld(base, t)
  {
    AllocPagesKeepsInv(s.pool, n);
    if AllocPages(s.pool, n).1.Some? {
      forall f | f in t.vm.used ensures !B.IsFree(t.pool, f - base) { B.AllocTakesBlock(s.pool, n, f - base); }
    }
  }

  /** The managed pages begin behind the frames that boot uses, and end below 4 GB. */
  ghost predicate Started(base: nat, max: nat, used: set<nat>) {
    2048 <= max && base + max <= 0x10_0000 && forall f :: f in used ==> f < base
  }

  lemma StartHeld(base: nat, max: nat, s: State)
    requires Buddy.Inv(s.pool) && s.pool.max == max && Started(base, max, s.vm.used)
    ensures FramesHeld(base, s)
  {
    forall f | f in s.vm.used ensures !B.IsFree(s.pool, f - base) { B.FreeIsComplement(s.pool, f - base); }
  }

  lemma {:induction false} RunHeld(base: nat, trace: seq<State>, steps: seq<Step>, i: nat)
    requires IsRun(base, trace, steps) && i < |trace| && FramesHeld(base, trace[0])
    ensures FramesHeld(base, trace[i])
  {
    if i > 0 {
      RunHeld(base, trace, steps, i - 1);
      StepFresh(base, trace[i - 1], steps[i - 1], trace[i]);
    }
  }

  /** In every joint run from start-up in which no frame is given back, each frame that a step
      of kernel virtual memory gets is one not in use: the steps are those of VmRuns. */
  lemma AnswersStayFresh(base: nat, max: nat, trace: seq<State>, steps: seq<Step>, i: nat)
    requires IsRun(base, trace, steps) && i < |steps| && Started(base, max, trace[0].vm.used) && trace[0].pool == B.Init(max)
    ensures steps[i].Kernel? ==> V.FreshAnswers(trace[i].vm, steps[i].op) && V.Legal(trace[i].vm, steps[i].op)
  {
    B.InitPartitions(max);
    StartHeld(base, max, trace[0]);
    RunHeld(base, trace, steps, i);
    StepFresh(base, trace[i], steps[i], trace[i + 1]);
  }

  lemma {:induction false} JointInv(base: nat, trace: seq<State>, steps: seq<Step>, i: nat)
    requires IsRun(base, trace, steps) && i < |trace| && FramesHeld(base, trace[0]) && Inv(trace[0].vm)
    ensures Inv(trace[i].vm)
  {
    if i > 0 {
      JointInv(base, trace, steps, i - 1);
      RunHeld(base, trace, steps, i - 1);
      StepFresh(base, trace[i - 1], steps[i - 1], trace[i]);
      if steps[i - 1].Kernel? { V.ApplyKeepsIff(trace[i - 1].vm, steps[i - 1].op); }
    }
  }

  /** With a page table of its own for every slot, busy kernel pages stay mapped to pairwise
      different frames in every joint run, and directories stay shown at their pages. */
  lemma JointSafety(base: nat, max: nat, mem: Mem, kdir: nat, used: set<nat>, pages: nat, trace: seq<State>, steps: seq<Step>, i: nat)
    requires V.Booted(mem, kdir, used, pages) && TabsApart(V.Init(mem, kdir, used, pages))
    requires IsRun(base, trace, steps) && i < |trace| && Started(base, max, used)
    requires trace[0].pool == B.Init(max) && trace[0].vm == V.Init(mem, kdir, used, pages)
    ensures Inv(trace[i].vm)
  {
    V.InitInv(mem, kdir, used, pages);
    B.InitPartitions(max);
    StartHeld(base, max, trace[0]);
    JointInv(base, trace, steps, i);
  }
}

/** Whole runs of the pool: what may use it after shutdown has freed it, how long a run
    can be, and what every run has done in the end. */
module PoolRuns {
  import opened TaskRing
  import opened ThreadPool

  // ---------------------------------------------------------------- the freed pool

  /** No submit is running. */
  ghost predicate Outside(s: State) {
    forall j :: 0 <= j < |s.submitters| ==> !Inside(s.submitters[j].pc)
  }

  /** No submit is running and none will begin. */
  ghost predicate NoSubmitLeft(s: State) {
    forall j :: 0 <= j < |s.submitters| ==> !Inside(s.submitters[j].pc) && s.submitters[j].todo == []
  }

  /** Along the run, no submit is running when shutdown frees the pool and none begins
      later. */
  ghost predicate OutsideAfterFree(s: State, steps: seq<Step>)
    decreases |steps|
  {
    && (s.freed ==> Outside(s))
    && (steps != [] ==>
          Enabled(s, steps[0]) && (Wf(s) ==> OutsideAfterFree(Apply(s, steps[0]), steps[1..])))
  }

  /** The workers never fault: shutdown has joined them before. */
  lemma {:induction false} OnlySubmitsFault(s: State, step: Step)
    requires Closing(s) && Enabled(s, step) && Faults(s, step)
    ensures step.Submit? && !Outside(s)
  {
  }

  lemma {:induction false} OutsideNeverFaults(s: State, steps: seq<Step>, t: State, offered: multiset<int>)
    requires Inv(s, offered) && !s.faulted && Reaches(s, steps, t) && OutsideAfterFree(s, steps)
    ensures !t.faulted
    decreases |steps|
  {
    hide Wf, Locked, Fifo, Accounted, Closing, Wakeful, Unrefused, Enabled, Outside, Faults;
    hide WorkerStep, SubmitStep, CloseStep;
    if steps != [] {
      var step := steps[0];
      StepKeepsInv(s, step, offered);
      if Faults(s, step) {
        OnlySubmitsFault(s, step);
        FreedOfFault(s, step);
      } else {
        SoundKeepsFault(s, step);
      }
      OutsideNeverFaults(Apply(s, step), steps[1..], t, offered);
    }
  }

  lemma {:induction false} FreedOfFault(s: State, step: Step)
    requires Faults(s, step)
    ensures s.freed
  {
  }

  lemma {:induction false} SoundKeepsFault(s: State, step: Step)
    requires Wf(s) && Sound(s, step)
    ensures Apply(s, step).faulted == s.faulted
  {
    hide RingOk, SubmitterTarget, WorkerTarget, Take, Put, Queue;
  }

  /** A submit that is running when the pool has been freed cannot get out of it. */
  lemma {:induction false} InsideStays(s: State, steps: seq<Step>, t: State, j: nat, offered: multiset<int>)
    requires Inv(s, offered) && Reaches(s, steps, t)
    requires s.freed && j < |s.submitters| && Inside(s.submitters[j].pc)
    ensures t.faulted || (t.freed && j < |t.submitters| && Inside(t.submitters[j].pc))
    decreases |steps|
  {
    hide Wf, Locked, Fifo, Accounted, Closing, Wakeful, Unrefused, Enabled, Inside, Apply;
    if steps != [] && !s.faulted {
      var step := steps[0];
      StepKeepsInv(s, step, offered);
      InsideAfter(s, step, j, offered);
      if !Apply(s, step).faulted {
        InsideStays(Apply(s, step), steps[1..], t, j, offered);
      } else {
        FaultIsFinal(Apply(s, step), steps[1..], t, offered);
      }
    } else if steps != [] {
      FaultIsFinal(s, steps, t, offered);
    }
  }

  lemma {:induction false} FaultIsFinal(s: State, steps: seq<Step>, t: State, offered: multiset<int>)
    requires Inv(s, offered) && s.faulted && Reaches(s, steps, t)
    ensures t == s
  {
  }

  lemma {:induction false} InsideAfter(s: State, step: Step, j: nat, offered: multiset<int>)
    requires Inv(s, offered) && Enabled(s, step) && s.freed && j < |s.submitters| && Inside(s.submitters[j].pc)
    ensures var t := Apply(s, step);
      t.faulted || (t.freed && j < |t.submitters| && Inside(t.submitters[j].pc))
  {
    hide RingOk, Locked, Fifo, Accounted, Wakeful, Unrefused, Queue, Put, Take;
  }

  /** A run that cannot go on has left no submit inside a freed pool. */
  lemma {:induction false} StuckOutside(s: State, offered: multiset<int>)
    requires Inv(s, offered) && Stuck(s) && s.freed && !s.faulted
    ensures Outside(s)
  {
    hide Locked, Fifo, Accounted, Wakeful, Unrefused;
    forall j | 0 <= j < |s.submitters| ensures !Inside(s.submitters[j].pc) {
      assert !Enabled(s, Submit(j, 0));
    }
  }

  lemma {:induction false} InsideFaults(s: State, steps: seq<Step>, t: State, offered: multiset<int>)
    requires Inv(s, offered) && Reaches(s, steps, t) && Stuck(t) && !OutsideAfterFree(s, steps)
    ensures t.faulted
    decreases |steps|
  {
    hide Wf, Locked, Fifo, Accounted, Closing, Wakeful, Unrefused, Enabled, Inside, Apply, Stuck;
    RunKeepsInv(s, steps, t, offered);
    if s.freed && !Outside(s) {
      var j: nat :| j < |s.submitters| && Inside(s.submitters[j].pc);
      InsideStays(s, steps, t, j, offered);
      if !t.faulted {
        StuckOutside(t, offered);
      }
    } else {
      StepKeepsInv(s, steps[0], offered);
      InsideFaults(Apply(s, steps[0]), steps[1..], t, offered);
    }
  }

  /** From a fresh pool to where nobody can go on: freed memory has been used if and only
      if some submit was running when shutdown freed the pool or began later. */
  lemma {:induction false} FreedUntouched(s: State, steps: seq<Step>, t: State, offered: multiset<int>)
    requires Init(s, offered) && Reaches(s, steps, t) && Stuck(t)
    ensures !t.faulted <==> OutsideAfterFree(s, steps)
  {
    InitInv(s, offered);
    hide Inv, Reaches, Stuck, OutsideAfterFree;
    if OutsideAfterFree(s, steps) {
      OutsideNeverFaults(s, steps, t, offered);
    } else {
      InsideFaults(s, steps, t, offered);
    }
  }

  // ---------------------------------------------------------------- what a caller has to see to

  lemma {:induction false} NobodyToWake(ss: seq<Submitter>, target: nat)
    requires forall j :: 0 <= j < |ss| ==> !Inside(ss[j].pc)
    ensures WakeSubmitter(ss, target) == ss && WakeAllSubmitters(ss) == ss
  {
  }

  lemma {:induction false} NothingLeftWork(s: State, i: nat, target: nat)
    requires Wf(s) && Sound(s, Work(i, target)) && NoSubmitLeft(s)
    ensures NoSubmitLeft(WorkerStep(s, i, target)) && WorkerStep(s, i, target).refused == s.refused
  {
    hide Wf, Enabled, Faults, WorkerStep, WakeSubmitter, Inside;
    WorkerFrame(s, i, target);
    NobodyToWake(s.submitters, target);
  }

  lemma {:induction false} NothingLeftSubmit(s: State, j: nat, target: nat)
    requires Wf(s) && Sound(s, Submit(j, target)) && NoSubmitLeft(s)
    ensures NoSubmitLeft(SubmitStep(s, j, target)) && SubmitStep(s, j, target).refused == s.refused
  {
    hide RingOk, WorkerTarget, Put, WakeWorker;
    assert s.submitters[j].pc.SClose?;
  }

  lemma {:induction false} NothingLeftOther(s: State, step: Step)
    requires Wf(s) && Sound(s, step) && NoSubmitLeft(s) && !step.Work? && !step.Submit?
    ensures NoSubmitLeft(Apply(s, step)) && Apply(s, step).refused == s.refused
  {
    hide RingOk, WakeSubmitter, WakeAllSubmitters, Inside;
    NobodyToWake(s.submitters, if step.SpuriousSubmitter? then step.j else 0);
  }

  lemma {:induction false} NothingLeftStays(s: State, step: Step)
    requires Wf(s) && Enabled(s, step) && NoSubmitLeft(s)
    ensures NoSubmitLeft(Apply(s, step)) && Outside(Apply(s, step)) && Apply(s, step).refused == s.refused
  {
    hide Wf, Enabled, Faults, WorkerStep, SubmitStep, CloseStep, WakeWorker, WakeSubmitter, Inside;
    if !Faults(s, step) {
      match step
      case Work(i, target) => NothingLeftWork(s, i, target);
      case Submit(j, target) => NothingLeftSubmit(s, j, target);
      case _ => NothingLeftOther(s, step);
    }
  }

  lemma {:induction false} NothingLeftOutside(s: State, steps: seq<Step>, t: State, offered: multiset<int>)
    requires Inv(s, offered) && Reaches(s, steps, t) && NoSubmitLeft(s)
    ensures OutsideAfterFree(s, steps) && t.refused == s.refused
    decreases |steps|
  {
    assert Outside(s);
    hide Wf, Locked, Fifo, Accounted, Closing, Wakeful, Unrefused, Enabled, Outside, NoSubmitLeft, Apply;
    if steps != [] {
      StepKeepsInv(s, steps[0], offered);
      NothingLeftStays(s, steps[0]);
      NothingLeftOutside(Apply(s, steps[0]), steps[1..], t, offered);
    }
  }

  /** From the moment of the freeing: no continuation uses freed memory if and only if
      no submit is running then and none is still to come. */
  lemma {:induction false} FreedSafely(s: State, offered: multiset<int>)
    requires Inv(s, offered) && s.freed && !s.faulted
    ensures (forall steps, t :: Reaches(s, steps, t) ==> !t.faulted) <==> NoSubmitLeft(s)
  {
    if NoSubmitLeft(s) {
      forall steps, t | Reaches(s, steps, t) ensures !t.faulted {
        NothingLeftOutside(s, steps, t, offered);
        OutsideNeverFaults(s, steps, t, offered);
      }
    } else {
      var j: nat :| j < |s.submitters| && (Inside(s.submitters[j].pc) || s.submitters[j].todo != []);
      var steps, t := LateSubmitFaults(s, j, offered);
      assert Reaches(s, steps, t);
    }
  }

  lemma {:induction false} InsideSubmitFaults(s: State, j: nat, offered: multiset<int>)
    requires Inv(s, offered) && s.freed && !s.faulted && j < |s.submitters| && Inside(s.submitters[j].pc)
    ensures Enabled(s, Submit(j, 0)) && Apply(s, Submit(j, 0)) == s.(faulted := true)
  {
    hide Locked, Fifo, Accounted, Wakeful, Unrefused;
  }

  lemma {:induction false} OutsideSubmitMoves(s: State, j: nat, offered: multiset<int>)
    requires Inv(s, offered) && s.freed && !s.faulted && j < |s.submitters|
    requires !Inside(s.submitters[j].pc) && s.submitters[j].todo != []
    ensures Enabled(s, Submit(j, 0))
    ensures var t := Apply(s, Submit(j, 0));
      && t.freed && !t.faulted && j < |t.submitters|
      && (s.submitters[j].pc.SIdle? ==> Inside(t.submitters[j].pc))
      && (s.submitters[j].pc.SClose? ==> t.submitters[j].pc.SIdle? && t.submitters[j].todo == s.submitters[j].todo)
  {
    hide Locked, Fifo, Accounted, Wakeful, Unrefused;
  }

  /** A submit that runs or begins after the freeing gets to a use of freed memory. */
  lemma {:induction false} LateSubmitFaults(s: State, j: nat, offered: multiset<int>)
    returns (steps: seq<Step>, t: State)
    requires Inv(s, offered) && s.freed && !s.faulted && j < |s.submitters|
    requires Inside(s.submitters[j].pc) || s.submitters[j].todo != []
    ensures Reaches(s, steps, t) && t.faulted
    decreases if Inside(s.submitters[j].pc) then 0 else if s.submitters[j].pc.SIdle? then 1 else 2
  {
    hide Enabled, Apply, Wf, Locked, Fifo, Accounted, Closing, Wakeful, Unrefused;
    var step := Submit(j, 0);
    if Inside(s.submitters[j].pc) {
      InsideSubmitFaults(s, j, offered);
      t := Apply(s, step);
      steps := [step];
      assert steps[1..] == [] && Reaches(t, [], t);
    } else {
      OutsideSubmitMoves(s, j, offered);
      StepKeepsInv(s, step, offered);
      var more;
      more, t := LateSubmitFaults(Apply(s, step), j, offered);
      steps := [step] + more;
      assert steps[1..] == more;
    }
  }

  /** Shutdown is called by the only thread that submits, after its last submit. */
  ghost predicate ClosedAfterSubmits(s: State, steps: seq<Step>)
    decreases |steps|
  {
    steps != [] ==>
      && Enabled(s, steps[0])
      && (steps[0].Close? && s.closer.CIdle? ==> NoSubmitLeft(s))
      && (Wf(s) ==> ClosedAfterSubmits(Apply(s, steps[0]), steps[1..]))
  }

  lemma {:induction false} StaysOpen(s: State, step: Step, offered: multiset<int>)
    requires Inv(s, offered) && s.closer.CIdle? && Enabled(s, step) && !step.Close?
    ensures Apply(s, step).closer.CIdle?
  {
    hide RingOk, Locked, Fifo, Accounted, Wakeful, Unrefused, Queue, Put, Take;
  }

  /** The accept loop of the server is such a caller: it never uses the freed pool, and
      no connection is refused. */
  lemma {:induction false} AcceptorIsSafe(s: State, steps: seq<Step>, t: State, offered: multiset<int>)
    requires Inv(s, offered) && s.closer.CIdle? && Reaches(s, steps, t) && ClosedAfterSubmits(s, steps)
    ensures OutsideAfterFree(s, steps) && t.refused == []
    decreases |steps|
  {
    IdleIsOpen(s, offered);
    hide Wf, Locked, Fifo, Accounted, Closing, Wakeful, Unrefused, Enabled, Outside, NoSubmitLeft, Apply;
    if steps != [] {
      StepKeepsInv(s, steps[0], offered);
      if steps[0].Close? {
        NothingLeftOutside(s, steps, t, offered);
      } else {
        StaysOpen(s, steps[0], offered);
        AcceptorIsSafe(Apply(s, steps[0]), steps[1..], t, offered);
      }
    }
  }

  lemma {:induction false} IdleIsOpen(s: State, offered: multiset<int>)
    requires Inv(s, offered) && s.closer.CIdle?
    ensures !s.stopping && !s.freed && !s.faulted && s.refused == []
  {
  }

  // ---------------------------------------------------------------- a late submit

  /** One worker, a queue of one slot, one caller with descriptor 7 to submit. */
  ghost function SmallPool(pc: SubmitPc, todo: seq<int>, worker: WorkerPc, closer: ClosePc, owner: Owner,
                           stopping: bool, freed: bool): State
  {
    State(Ring([0], 0, 0, 0), stopping, owner, [worker], [Submitter(pc, todo)], closer,
          [], [], [], [], [], [], freed, false)
  }

  lemma {:induction false} SmallStart()
    ensures Init(SmallPool(SIdle, [7], WLock, CIdle, Free, false, false), multiset{7})
  {
    var s := SmallPool(SIdle, [7], WLock, CIdle, Free, false, false);
    forall x ensures multiset{7}[x] == Total(s.submitters, Open(x)) {
      assert Total(s.submitters[1..], Open(x)) == 0;
      assert Count([7], x) == if x == 7 then 1 else 0;
    }
  }

  ghost predicate Leads(s: State, step: Step, t: State) {
    Wf(s) && Enabled(s, step) && Apply(s, step) == t
  }

  lemma {:induction false} ChainReaches(us: seq<State>, steps: seq<Step>)
    requires |us| == |steps| + 1
    requires forall i :: 0 <= i < |steps| ==> Leads(us[i], steps[i], us[i + 1])
    ensures Reaches(us[0], steps, us[|steps|])
    decreases |steps|
  {
    hide Wf, Enabled, Apply;
    if steps != [] {
      assert Leads(us[0], steps[0], us[1]);
      forall i | 0 <= i < |steps| - 1 ensures Leads(us[1..][i], steps[1..][i], us[1..][i + 1]) {
        assert Leads(us[i + 1], steps[i + 1], us[i + 2]);
      }
      ChainReaches(us[1..], steps[1..]);
    }
  }

  /** The caller begins its submit, shutdown goes up to the join, the worker leaves,
      shutdown frees the pool, and the submit locks the freed mutex. */
  ghost function LateSteps(): seq<Step> {
    [Submit(0, 0), Close, Close, Close, Close, Close, Close,
     Work(0, 0), Work(0, 0), Work(0, 0), Work(0, 0), Close, Submit(0, 0)]
  }

  ghost function LateStates(): seq<State> {
    [SmallPool(SIdle, [7], WLock, CIdle, Free, false, false),
     SmallPool(SLock(7), [], WLock, CIdle, Free, false, false),
     SmallPool(SLock(7), [], WLock, CLock, Free, false, false),
     SmallPool(SLock(7), [], WLock, CFlag, ByCloser, false, false),
     SmallPool(SLock(7), [], WLock, CWakeWorkers, ByCloser, true, false),
     SmallPool(SLock(7), [], WLock, CWakeSubmitters, ByCloser, true, false),
     SmallPool(SLock(7), [], WLock, CUnlock, ByCloser, true, false),
     SmallPool(SLock(7), [], WLock, CJoin, Free, true, false),
     SmallPool(SLock(7), [], WTest, CJoin, ByWorker(0), true, false),
     SmallPool(SLock(7), [], WTake, CJoin, ByWorker(0), true, false),
     SmallPool(SLock(7), [], WLeave, CJoin, ByWorker(0), true, false),
     SmallPool(SLock(7), [], WDone, CJoin, Free, true, false),
     SmallPool(SLock(7), [], WDone, CDone, Free, true, true),
     SmallPool(SLock(7), [], WDone, CDone, Free, true, true).(faulted := true)]
  }

  lemma {:induction false} CloseLeads(i: nat)
    requires 1 <= i < 4
    ensures Leads(LateStates()[i], Close, LateStates()[i + 1])
  {
  }

  lemma {:induction false} StopLeads(i: nat)
    requires 4 <= i < 7
    ensures Leads(LateStates()[i], Close, LateStates()[i + 1])
  {
  }

  lemma {:induction false} WorkLeads(i: nat)
    requires 7 <= i < 11
    ensures Leads(LateStates()[i], Work(0, 0), LateStates()[i + 1])
  {
  }

  lemma {:induction false} FirstLeads()
    ensures Leads(LateStates()[0], Submit(0, 0), LateStates()[1])
  {
    assert [7][1..] == [];
  }

  lemma {:induction false} LastLeads()
    ensures Leads(LateStates()[11], Close, LateStates()[12])
    ensures Leads(LateStates()[12], Submit(0, 0), LateStates()[13])
  {
  }

  lemma {:induction false} LateLeads(i: nat)
    requires i < 13
    ensures Leads(LateStates()[i], LateSteps()[i], LateStates()[i + 1])
  {
    hide Leads, LateStates;
    if i == 0 {
      FirstLeads();
    } else if i < 4 {
      CloseLeads(i);
    } else if i < 7 {
      StopLeads(i);
    } else if i < 11 {
      WorkLeads(i);
    } else {
      LastLeads();
    }
  }

  /** Such a run: the pool is freed under a submit that has begun, which then uses freed
      memory, and its descriptor is neither accepted nor refused. */
  lemma {:induction false} LateSubmit()
    ensures var s, t := LateStates()[0], LateStates()[13];
      && Init(s, multiset{7}) && Reaches(s, LateSteps(), t) && Stuck(t)
      && t.faulted && !OutsideAfterFree(s, LateSteps())
      && t.accepted == t.granted == t.refused == t.closed == []
  {
    hide Leads, Reaches, OutsideAfterFree, Inv;
    var s, t := LateStates()[0], LateStates()[13];
    SmallStart();
    forall i | 0 <= i < 13 ensures Leads(LateStates()[i], LateSteps()[i], LateStates()[i + 1]) {
      LateLeads(i);
    }
    ChainReaches(LateStates(), LateSteps());
    assert Stuck(t);
    FreedUntouched(s, LateSteps(), t, multiset{7});
  }

  // ---------------------------------------------------------------- how long a run can be

  /** How far a worker is from resting.  A sleeper counts more once nobody falls asleep. */
  ghost function WorkerRank(stopping: bool): WorkerPc -> int {
    (pc: WorkerPc) =>
      match pc
      case WSignal(_) => 10
      case WUnlock(_) => 7
      case WCall(_) => 6
      case WHandle(_) => 5
      case WLock => 4
      case WWake => 4
      case WSleep => if stopping then 5 else 2
      case WTest => 3
      case WTake => 2
      case WLeave => 1
      case WDone => 0
  }

  ghost function SubmitterRank(stopping: bool): Submitter -> int {
    (sub: Submitter) =>
      18 * |sub.todo| +
      match sub.pc
      case SIdle => 0
      case SClose(_) => 1
      case SUnlock(_, _) => 2
      case SSignal(_) => 5
      case SPut(_) => 15
      case STest(_) => 16
      case SLock(_) => 17
      case SWake(_) => 17
      case SSleep(_) => if stopping then 18 else 15
  }

  ghost function CloserRank(s: State): int {
    match s.closer
    case CIdle => 7 + 3 * (|s.workers| + |s.submitters|)
    case CLock => 6 + 3 * (|s.workers| + |s.submitters|)
    case CFlag => 5 + 3 * (|s.workers| + |s.submitters|)
    case CWakeWorkers => 4
    case CWakeSubmitters => 3
    case CUnlock => 2
    case CJoin => 1
    case CDone => 0
  }

  ghost function Measure(s: State): int {
    9 * s.ring.count + Total(s.workers, WorkerRank(s.stopping)) + Total(s.submitters, SubmitterRank(s.stopping))
    + CloserRank(s) + (if s.faulted then 0 else 1)
  }

  ghost predicate Spurious(step: Step) {
    step.SpuriousWorker? || step.SpuriousSubmitter?
  }

  /** A spurious wakeup of an open pool can set a run back; every other step brings it on. */
  ghost function Setback(s: State, step: Step): int {
    if Spurious(step) && !s.stopping then 2 else -1
  }

  lemma {:induction false} WakeWorkerRank(ws: seq<WorkerPc>, target: nat, stopping: bool)
    ensures Total(WakeWorker(ws, target), WorkerRank(stopping))
      <= Total(ws, WorkerRank(stopping)) + (if stopping then 0 else 2)
    ensures WorkerSleeps(ws, target) && stopping ==>
      Total(WakeWorker(ws, target), WorkerRank(stopping)) == Total(ws, WorkerRank(stopping)) - 1
  {
    if WorkerSleeps(ws, target) {
      TotalUpdate(ws, target, WWake, WorkerRank(stopping));
    }
  }

  lemma {:induction false} WakeSubmitterRank(ss: seq<Submitter>, target: nat, stopping: bool)
    ensures Total(WakeSubmitter(ss, target), SubmitterRank(stopping))
      <= Total(ss, SubmitterRank(stopping)) + (if stopping then 0 else 2)
    ensures SubmitterSleeps(ss, target) && stopping ==>
      Total(WakeSubmitter(ss, target), SubmitterRank(stopping)) == Total(ss, SubmitterRank(stopping)) - 1
  {
    if SubmitterSleeps(ss, target) {
      TotalUpdate(ss, target, ss[target].(pc := SWake(ss[target].pc.fd)), SubmitterRank(stopping));
    }
  }

  lemma {:induction false} TotalBelow<P>(ps: seq<P>, qs: seq<P>, f: P -> int, g: P -> int, c: nat)
    requires |ps| == |qs| && forall i :: 0 <= i < |ps| ==> f(ps[i]) <= g(qs[i]) + c
    ensures Total(ps, f) <= Total(qs, g) + c * |ps|
  {
    if ps != [] {
      assert forall i :: 0 <= i < |ps[1..]| ==> ps[1..][i] == ps[i + 1] && qs[1..][i] == qs[i + 1];
      TotalBelow(ps[1..], qs[1..], f, g, c);
      assert c * |ps| == c + c * |ps[1..]|;
    }
  }

  lemma {:induction false} WorkerRanks(s: State, i: nat, target: nat)
    requires Wf(s) && Sound(s, Work(i, target)) && WorkerStep(s, i, target).stopping == s.stopping
    ensures var s' := WorkerStep(s, i, target);
      i < |s'.workers|
      && 9 * s'.ring.count + WorkerRank(s.stopping)(s'.workers[i]) + (if s.workers[i].WSignal? then 2 else 0)
         < 9 * s.ring.count + WorkerRank(s.stopping)(s.workers[i])
      && (!s.workers[i].WSignal? ==> s'.submitters == s.submitters)
      && s'.closer == s.closer && s'.faulted == s.faulted
  {
    hide SubmitterTarget, WakeSubmitter, Queue;
  }

  lemma {:induction false} WorkerDecreases(s: State, i: nat, target: nat, offered: multiset<int>)
    requires Inv(s, offered) && Sound(s, Work(i, target))
    ensures WorkerStep(s, i, target).stopping == s.stopping
    ensures Measure(WorkerStep(s, i, target)) < Measure(s)
  {
    var s' := WorkerStep(s, i, target);
    WorkerFlag(s, i, target);
    hide Wf, Locked, Fifo, Accounted, Closing, Wakeful, Unrefused, Total, WorkerRank, SubmitterRank, Enabled, Faults;
    hide WorkerStep, WakeSubmitter;
    WorkerFrame(s, i, target);
    WorkerRanks(s, i, target);
    TotalUpdate(s.workers, i, s'.workers[i], WorkerRank(s.stopping));
    WakeSubmitterRank(s.submitters, target, s.stopping);
    SameLength(s.submitters, target);
  }

  lemma {:induction false} SameLength(ss: seq<Submitter>, target: nat)
    ensures |WakeSubmitter(ss, target)| == |ss|
  {
  }

  lemma {:induction false} WorkerFlag(s: State, i: nat, target: nat)
    requires Wf(s) && Sound(s, Work(i, target))
    ensures WorkerStep(s, i, target).stopping == s.stopping
  {
    hide RingOk, SubmitterTarget, WakeSubmitter, Take;
  }

  lemma {:induction false} SubmitterRanks(s: State, j: nat, target: nat)
    requires Wf(s) && Sound(s, Submit(j, target))
    ensures var s' := SubmitStep(s, j, target);
      j < |s'.submitters|
      && 9 * s'.ring.count + SubmitterRank(s.stopping)(s'.submitters[j])
         + (if s.submitters[j].pc.SSignal? then 2 else 0)
         < 9 * s.ring.count + SubmitterRank(s.stopping)(s.submitters[j])
      && (!s.submitters[j].pc.SSignal? ==> s'.workers == s.workers)
      && s'.stopping == s.stopping && s'.closer == s.closer && s'.faulted == s.faulted
  {
    hide WorkerTarget, WakeWorker, Queue, RingOk, Put, Faults;
    if s.submitters[j].pc.SPut? {
      PutShape(s.ring, s.submitters[j].pc.fd);
    }
  }

  lemma {:induction false} SameWorkers(ws: seq<WorkerPc>, target: nat)
    ensures |WakeWorker(ws, target)| == |ws|
  {
  }

  lemma {:induction false} SubmitterDecreases(s: State, j: nat, target: nat, offered: multiset<int>)
    requires Inv(s, offered) && Sound(s, Submit(j, target))
    ensures SubmitStep(s, j, target).stopping == s.stopping
    ensures Measure(SubmitStep(s, j, target)) < Measure(s)
  {
    hide Wf, Locked, Fifo, Accounted, Closing, Wakeful, Unrefused, Total, WorkerRank, SubmitterRank, Enabled, Faults;
    hide SubmitStep, WakeWorker;
    var s' := SubmitStep(s, j, target);
    SubmitterFrame(s, j, target);
    SubmitterRanks(s, j, target);
    TotalUpdate(s.submitters, j, s'.submitters[j], SubmitterRank(s.stopping));
    WakeWorkerRank(s.workers, target, s.stopping);
    SameWorkers(s.workers, target);
  }

  lemma {:induction false} CloserDecreases(s: State)
    requires Enabled(s, Close)
    requires s.stopping <==> !s.closer.CIdle? && !s.closer.CLock? && !s.closer.CFlag?
    ensures s.stopping ==> CloseStep(s).stopping
    ensures Measure(CloseStep(s)) < Measure(s)
  {
    var t := CloseStep(s);
    if s.closer.CFlag? {
      TotalBelow(s.workers, s.workers, WorkerRank(true), WorkerRank(false), 3);
      TotalBelow(s.submitters, s.submitters, SubmitterRank(true), SubmitterRank(false), 3);
    } else if s.closer.CWakeWorkers? {
      TotalBelow(t.workers, s.workers, WorkerRank(true), WorkerRank(true), 0);
    } else if s.closer.CWakeSubmitters? {
      TotalBelow(t.submitters, s.submitters, SubmitterRank(true), SubmitterRank(true), 0);
    }
  }

  lemma {:induction false} SpuriousRank(s: State, step: Step)
    requires Wf(s) && Sound(s, step) && Spurious(step)
    ensures Apply(s, step).stopping == s.stopping
    ensures Measure(Apply(s, step)) <= Measure(s) + Setback(s, step)
  {
    hide RingOk, Total, WorkerRank, SubmitterRank;
    match step
    case SpuriousWorker(i) =>
      WakeWorkerRank(s.workers, i, s.stopping);
    case SpuriousSubmitter(j) =>
      WakeSubmitterRank(s.submitters, j, s.stopping);
  }

  lemma {:induction false} FaultRank(s: State, step: Step)
    requires Wf(s) && Enabled(s, step) && Faults(s, step)
    ensures Apply(s, step).stopping == s.stopping && Measure(Apply(s, step)) < Measure(s)
  {
    hide RingOk, Total, WorkerRank, SubmitterRank, Wf;
  }

  /** Every step comes nearer the end, except a spurious wakeup before shutdown has set
      its flag; from the flag on, those do too. */
  lemma {:induction false} StepDecreases(s: State, step: Step, offered: multiset<int>)
    requires Inv(s, offered) && Enabled(s, step)
    ensures Measure(Apply(s, step)) <= Measure(s) + Setback(s, step)
    ensures s.stopping ==> Apply(s, step).stopping
  {
    assert s.stopping <==> !s.closer.CIdle? && !s.closer.CLock? && !s.closer.CFlag?;
    hide Wf, Locked, Fifo, Accounted, Closing, Wakeful, Unrefused, Enabled, Faults, Measure;
    hide WorkerStep, SubmitStep, CloseStep, WakeWorker, WakeSubmitter;
    if Faults(s, step) {
      FaultRank(s, step);
    } else {
      match step
      case Work(i, target) => WorkerDecreases(s, i, target, offered);
      case Submit(j, target) => SubmitterDecreases(s, j, target, offered);
      case Close => CloserDecreases(s);
      case _ => SpuriousRank(s, step);
    }
  }

  ghost function SpuriousSteps(steps: seq<Step>): nat {
    if steps == [] then 0 else (if Spurious(steps[0]) then 1 else 0) + SpuriousSteps(steps[1..])
  }

  lemma {:induction false} MeasureNonneg(s: State, offered: multiset<int>)
    requires Inv(s, offered)
    ensures 0 <= Measure(s)
  {
    TotalPositive(s.workers, WorkerRank(s.stopping));
    TotalPositive(s.submitters, SubmitterRank(s.stopping));
    hide Total, Locked, Fifo, Accounted, Closing, Wakeful, Unrefused;
  }

  /** The length of every run, before and after shutdown, is bounded by where it starts
      and by its spurious wakeups: with finitely many of them every run is finite. */
  lemma {:induction false} RunsEnd(s: State, steps: seq<Step>, t: State, offered: multiset<int>)
    requires Inv(s, offered) && Reaches(s, steps, t)
    ensures |steps| + Measure(t) <= Measure(s) + 3 * SpuriousSteps(steps) && 0 <= Measure(t)
    decreases |steps|
  {
    hide Measure, Enabled, Apply, Locked, Fifo, Accounted, Closing, Wakeful, Unrefused, Wf;
    if steps == [] {
      MeasureNonneg(s, offered);
    } else {
      StepKeepsInv(s, steps[0], offered);
      StepDecreases(s, steps[0], offered);
      RunsEnd(Apply(s, steps[0]), steps[1..], t, offered);
    }
  }

  /** Once shutdown has set its flag no run is longer than the measure of its first
      state, whatever wakeups there are. */
  lemma {:induction false} RunsEndAfterFlag(s: State, steps: seq<Step>, t: State, offered: multiset<int>)
    requires Inv(s, offered) && s.stopping && Reaches(s, steps, t)
    ensures |steps| + Measure(t) <= Measure(s) && 0 <= Measure(t)
    decreases |steps|
  {
    hide Measure, Enabled, Apply, Locked, Fifo, Accounted, Closing, Wakeful, Unrefused, Wf;
    if steps == [] {
      MeasureNonneg(s, offered);
    } else {
      StepKeepsInv(s, steps[0], offered);
      StepDecreases(s, steps[0], offered);
      RunsEndAfterFlag(Apply(s, steps[0]), steps[1..], t, offered);
    }
  }

  // ---------------------------------------------------------------- whole runs

  /** An open pool needs no shutdown: every run of it is finite if its spurious wakeups
      are, and where it cannot go on every offered descriptor was handed over once, in
      the order of the queue, and closed once. */
  lemma {:induction false} OpenRun(s: State, steps: seq<Step>, t: State, offered: multiset<int>)
    requires Init(s, offered) && Reaches(s, steps, t) && |t.workers| > 0 && !t.stopping
    ensures |steps| <= Measure(s) + 3 * SpuriousSteps(steps)
    ensures Stuck(t) ==> t.taken == t.accepted && t.refused == []
    ensures Stuck(t) ==> offered == multiset(t.started) == multiset(t.granted) == multiset(t.closed)
  {
    InitInv(s, offered);
    RunKeepsInv(s, steps, t, offered);
    RunsEnd(s, steps, t, offered);
    hide Inv, Init, Reaches, Stuck, Measure;
    if Stuck(t) {
      DeliveredWhileOpen(t, offered);
    }
  }

  /** The pool's promise over whole runs: from a fresh pool, through any interleaving
      with spurious wakeups, a run in which no submit is running when shutdown frees the
      pool and none begins later, and which cannot go on after shutdown, has handed over
      every accepted descriptor once, refused every other one once, closed each of them
      once, and left no thread behind. */
  lemma {:induction false} WholeRun(s: State, steps: seq<Step>, t: State, offered: multiset<int>)
    requires Init(s, offered) && Reaches(s, steps, t) && Stuck(t) && t.stopping && |t.workers| > 0
    requires OutsideAfterFree(s, steps)
    ensures !t.faulted && t.closer.CDone? && forall i :: 0 <= i < |t.workers| ==> t.workers[i].WDone?
    ensures t.taken == t.accepted && t.ring.count == 0
    ensures multiset(t.started) == multiset(t.accepted) == multiset(t.granted)
    ensures offered == multiset(t.granted) + multiset(t.refused) == multiset(t.closed)
  {
    InitInv(s, offered);
    RunKeepsInv(s, steps, t, offered);
    FreedUntouched(s, steps, t, offered);
    hide Inv, Init, Reaches, Stuck, OutsideAfterFree;
    StuckAfterClose(t, offered);
    Delivered(t, offered);
  }

  /** The server: the thread that accepts connections also calls shutdown, after its last
      submit.  Freed memory is never used, and every connection is handed over once and
      closed once. */
  lemma {:induction false} ServerRun(s: State, steps: seq<Step>, t: State, offered: multiset<int>)
    requires Init(s, offered) && Reaches(s, steps, t) && ClosedAfterSubmits(s, steps)
    ensures !t.faulted && t.refused == []
    ensures Stuck(t) && t.stopping && |t.workers| > 0 ==>
      offered == multiset(t.started) == multiset(t.granted) == multiset(t.closed)
  {
    assert s.closer.CIdle? && !s.faulted;
    InitInv(s, offered);
    hide Inv, Init, Reaches, Stuck, OutsideAfterFree;
    AcceptorIsSafe(s, steps, t, offered);
    OutsideNeverFaults(s, steps, t, offered);
    if Stuck(t) && t.stopping && |t.workers| > 0 {
      WholeRun(s, steps, t, offered);
    }
  }
}

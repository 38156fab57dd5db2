/** The bounded task queue as a ring, and the methods that work on it in place. */
module TaskRing {

  datatype Ring = Ring(fds: seq<int>, head: nat, tail: nat, count: nat)

  ghost predicate RingOk(r: Ring) {
    && 0 < |r.fds| && r.head < |r.fds| && r.count <= |r.fds|
    && r.tail == (r.head + r.count) % |r.fds|
  }

  /** The waiting descriptors, oldest first. */
  ghost function Queue(r: Ring): (q: seq<int>)
    requires RingOk(r)
    ensures |q| == r.count
  {
    seq(r.count, i requires 0 <= i < r.count => r.fds[(r.head + i) % |r.fds|])
  }

  function Put(r: Ring, fd: int): Ring
    requires r.tail < |r.fds|
  {
    Ring(r.fds[r.tail := fd], r.head, (r.tail + 1) % |r.fds|, r.count + 1)
  }

  function Take(r: Ring): Ring
    requires r.head < |r.fds| && r.count > 0
  {
    Ring(r.fds, (r.head + 1) % |r.fds|, r.tail, r.count - 1)
  }

  lemma {:induction false} Wrap(x: nat, c: nat)
    requires 0 < c && x < 2 * c
    ensures x % c == if x < c then x else x - c
  {
    if x >= c {
      assert (x - c) % c == x - c;
    }
  }

  /** The ring refines a queue: what is put in comes last. */
  lemma {:induction false} PutQueue(r: Ring, fd: int)
    requires RingOk(r) && r.count < |r.fds|
    ensures RingOk(Put(r, fd)) && Queue(Put(r, fd)) == Queue(r) + [fd]
  {
    var c := |r.fds|;
    Wrap(r.head + r.count, c);
    Wrap(r.tail + 1, c);
    Wrap(r.head + (r.count + 1), c);
    forall i | 0 <= i <= r.count ensures Queue(Put(r, fd))[i] == (Queue(r) + [fd])[i] {
      Wrap(r.head + i, c);
    }
  }

  /** And what is taken out came first. */
  lemma {:induction false} TakeQueue(r: Ring)
    requires RingOk(r) && r.count > 0
    ensures RingOk(Take(r)) && Queue(Take(r)) == Queue(r)[1..] && Queue(r)[0] == r.fds[r.head]
  {
    var c := |r.fds|;
    Wrap(r.head, c);
    SlotMoves(r.head, c, r.count - 1);
    forall i | 0 <= i < r.count - 1 ensures Queue(Take(r))[i] == Queue(r)[1..][i] {
      SlotMoves(r.head, c, i);
    }
  }

  lemma {:induction false} SlotMoves(head: nat, c: nat, i: nat)
    requires head < c && i < c
    ensures ((head + 1) % c + i) % c == (head + (i + 1)) % c && (head + 1) % c < c
  {
    Wrap(head + 1, c);
    Wrap((head + 1) % c + i, c);
    Wrap(head + (i + 1), c);
  }

  /** The shared fields of the pool, changed only inside its critical sections. */
  class PoolQueue {
    const fds: array<int>
    var head: nat
    var tail: nat
    var count: nat

    ghost function State(): Ring
      reads this, fds
    {
      Ring(fds[..], head, tail, count)
    }

    ghost predicate Valid()
      reads this, fds
    {
      RingOk(State())
    }

    constructor (capacity: nat)
      requires 0 < capacity
      ensures Valid() && Queue(State()) == [] && fds.Length == capacity && fresh(fds)
    {
      fds := new int[capacity](_ => 0);
      head, tail, count := 0, 0, 0;
    }

    method Enqueue(fd: int)
      requires Valid() && count < fds.Length
      modifies this, fds
      ensures Valid() && State() == Put(old(State()), fd)
      ensures Queue(State()) == Queue(old(State())) + [fd]
    {
      PutQueue(State(), fd);
      fds[tail] := fd;
      tail := (tail + 1) % fds.Length;
      count := count + 1;
    }

    method Dequeue() returns (fd: int)
      requires Valid() && 0 < count
      modifies this
      ensures Valid() && State() == Take(old(State()))
      ensures [fd] + Queue(State()) == Queue(old(State()))
    {
      TakeQueue(State());
      fd := fds[head];
      head := (head + 1) % fds.Length;
      count := count - 1;
    }
  }
}

/** The pool as a transition system: workers, submitters and one caller of
    shutdown, each stepping between two accesses to the shared state. */
module ThreadPool {
  import opened TaskRing

  datatype WorkerPc =
    | WLock              // about to lock the mutex
    | WTest              // holds it, about to test the loop condition
    | WSleep             // waits on not_empty
    | WWake              // woken up, has to lock the mutex again
    | WTake              // holds it, has left the loop
    | WSignal(fd: int)   // holds it, has taken fd, about to signal not_full
    | WUnlock(fd: int)   // holds it, about to unlock
    | WCall(fd: int)     // about to call the handler
    | WHandle(fd: int)   // inside the handler
    | WLeave             // holds it, about to unlock and exit
    | WDone

  datatype SubmitPc =
    | SIdle
    | SLock(fd: int)
    | STest(fd: int)
    | SSleep(fd: int)            // waits on not_full
    | SWake(fd: int)
    | SPut(fd: int)              // holds the mutex, has left the loop
    | SSignal(fd: int)           // has stored fd, about to signal not_empty
    | SUnlock(fd: int, ok: bool)
    | SClose(fd: int)            // submit has returned 0, its caller is about to close fd

  datatype Submitter = Submitter(pc: SubmitPc, todo: seq<int>)

  datatype ClosePc = CIdle | CLock | CFlag | CWakeWorkers | CWakeSubmitters | CUnlock | CJoin | CDone

  datatype Owner = Free | ByWorker(i: nat) | BySubmitter(j: nat) | ByCloser

  datatype State = State(
    ring: Ring,
    stopping: bool,
    owner: Owner,
    workers: seq<WorkerPc>,
    submitters: seq<Submitter>,
    closer: ClosePc,
    accepted: seq<int>,        // descriptors stored in the queue, in order
    taken: seq<int>,           // descriptors taken out, in order
    started: seq<int>,         // descriptors handed to the handler
    granted: seq<int>,         // descriptors whose submit returned 1
    refused: seq<int>,         // descriptors whose submit returned 0
    closed: seq<int>,          // descriptors closed by the handler or by the caller of submit
    freed: bool,               // shutdown has destroyed mutex and conditions and freed the ring
    faulted: bool)             // a thread has used the pool after that

  /** Who moves next; target says whom a signal wakes. */
  datatype Step =
    | Work(i: nat, target: nat)
    | Submit(j: nat, target: nat)
    | Close
    | SpuriousWorker(i: nat)
    | SpuriousSubmitter(j: nat)

  // ---------------------------------------------------------------- steps

  ghost predicate WorkerHolds(pc: WorkerPc) {
    pc.WTest? || pc.WTake? || pc.WSignal? || pc.WUnlock? || pc.WLeave?
  }

  ghost predicate SubmitterHolds(pc: SubmitPc) {
    pc.STest? || pc.SPut? || pc.SSignal? || pc.SUnlock?
  }

  ghost predicate CloserHolds(pc: ClosePc) {
    pc.CFlag? || pc.CWakeWorkers? || pc.CWakeSubmitters? || pc.CUnlock?
  }

  ghost predicate WorkerSleeps(ws: seq<WorkerPc>, i: nat) {
    i < |ws| && ws[i].WSleep?
  }

  ghost predicate SubmitterSleeps(ss: seq<Submitter>, j: nat) {
    j < |ss| && ss[j].pc.SSleep?
  }

  /** A signal wakes a sleeper if there is one. */
  ghost predicate WorkerTarget(ws: seq<WorkerPc>, target: nat) {
    (exists i :: WorkerSleeps(ws, i)) ==> WorkerSleeps(ws, target)
  }

  ghost predicate SubmitterTarget(ss: seq<Submitter>, target: nat) {
    (exists j :: SubmitterSleeps(ss, j)) ==> SubmitterSleeps(ss, target)
  }

  ghost function WakeWorker(ws: seq<WorkerPc>, target: nat): seq<WorkerPc> {
    if WorkerSleeps(ws, target) then ws[target := WWake] else ws
  }

  ghost function WakeSubmitter(ss: seq<Submitter>, target: nat): seq<Submitter> {
    if SubmitterSleeps(ss, target) then ss[target := ss[target].(pc := SWake(ss[target].pc.fd))] else ss
  }

  ghost function WakeAllWorkers(ws: seq<WorkerPc>): seq<WorkerPc> {
    seq(|ws|, i requires 0 <= i < |ws| => if ws[i].WSleep? then WWake else ws[i])
  }

  ghost function WakeAllSubmitters(ss: seq<Submitter>): seq<Submitter> {
    seq(|ss|, j requires 0 <= j < |ss| => if ss[j].pc.SSleep? then ss[j].(pc := SWake(ss[j].pc.fd)) else ss[j])
  }

  /** Steps that use the pool: all but a handler's, and those of a caller outside of submit. */
  ghost predicate Touches(s: State, step: Step) {
    match step
    case Work(i, _) => i < |s.workers| && !s.workers[i].WHandle?
    case Submit(j, _) => j < |s.submitters| && Inside(s.submitters[j].pc)
    case _ => true
  }

  ghost predicate Inside(pc: SubmitPc) {
    !pc.SIdle? && !pc.SClose?
  }

  /** A use of the pool after shutdown has freed it.  What it does is undefined. */
  ghost predicate Faults(s: State, step: Step) {
    s.freed && Touches(s, step)
  }

  /** After a fault nothing is said any more; a submit on a freed mutex waits for nobody. */
  ghost predicate Enabled(s: State, step: Step) {
    !s.faulted &&
    match step
    case Work(i, target) =>
      && i < |s.workers|
      && var pc := s.workers[i];
      && !pc.WSleep? && !pc.WDone?
      && (pc.WLock? || pc.WWake? ==> s.owner == Free)
      && (pc.WSignal? ==> SubmitterTarget(s.submitters, target))
    case Submit(j, target) =>
      && j < |s.submitters|
      && var pc := s.submitters[j].pc;
      && !pc.SSleep?
      && (pc.SIdle? ==> s.submitters[j].todo != [])
      && (pc.SLock? || pc.SWake? ==> s.owner == Free || s.freed)
      && (pc.SSignal? ==> WorkerTarget(s.workers, target))
    case Close =>
      && !s.closer.CDone?
      && (s.closer.CLock? ==> s.owner == Free)
      && (s.closer.CJoin? ==> forall i :: 0 <= i < |s.workers| ==> s.workers[i].WDone?)
    case SpuriousWorker(i) => WorkerSleeps(s.workers, i)
    case SpuriousSubmitter(j) => SubmitterSleeps(s.submitters, j)
  }

  /** A step whose effect is defined. */
  ghost predicate Sound(s: State, step: Step) {
    Enabled(s, step) && !Faults(s, step)
  }

  ghost function SetWorker(s: State, i: nat, pc: WorkerPc): State
    requires i < |s.workers|
  {
    s.(workers := s.workers[i := pc])
  }

  ghost function SetSubmitter(s: State, j: nat, pc: SubmitPc): State
    requires j < |s.submitters|
  {
    s.(submitters := s.submitters[j := s.submitters[j].(pc := pc)])
  }

  /** What a thread knows once it has left its waiting loop. */
  ghost predicate Wf(s: State) {
    && RingOk(s.ring)
    && (forall i :: 0 <= i < |s.workers| && s.workers[i].WTake? ==> s.stopping || s.ring.count > 0)
    && (forall j :: 0 <= j < |s.submitters| && s.submitters[j].pc.SPut? ==>
      !s.stopping && s.ring.count < |s.ring.fds|)
  }

  ghost function WorkerStep(s: State, i: nat, target: nat): State
    requires Wf(s) && Enabled(s, Work(i, target))
  {
    match s.workers[i]
    case WLock => SetWorker(s, i, WTest).(owner := ByWorker(i))
    case WWake => SetWorker(s, i, WTest).(owner := ByWorker(i))
    case WTest =>
      if !s.stopping && s.ring.count == 0 then SetWorker(s, i, WSleep).(owner := Free)
      else SetWorker(s, i, WTake)
    case WTake =>
      if s.stopping && s.ring.count == 0 then SetWorker(s, i, WLeave)
      else
        var fd := s.ring.fds[s.ring.head];
        SetWorker(s, i, WSignal(fd)).(ring := Take(s.ring), taken := s.taken + [fd])
    case WSignal(fd) => SetWorker(s, i, WUnlock(fd)).(submitters := WakeSubmitter(s.submitters, target))
    case WUnlock(fd) => SetWorker(s, i, WCall(fd)).(owner := Free)
    case WCall(fd) => SetWorker(s, i, WHandle(fd)).(started := s.started + [fd])
    case WHandle(fd) => SetWorker(s, i, WLock).(closed := s.closed + [fd])
    case WLeave => SetWorker(s, i, WDone).(owner := Free)
    case WSleep => s
    case WDone => s
  }

  ghost function SubmitStep(s: State, j: nat, target: nat): State
    requires Wf(s) && Enabled(s, Submit(j, target))
  {
    match s.submitters[j].pc
    case SIdle =>
      var todo := s.submitters[j].todo;
      s.(submitters := s.submitters[j := Submitter(SLock(todo[0]), todo[1..])])
    case SLock(fd) => SetSubmitter(s, j, STest(fd)).(owner := BySubmitter(j))
    case SWake(fd) => SetSubmitter(s, j, STest(fd)).(owner := BySubmitter(j))
    case STest(fd) =>
      if !s.stopping && s.ring.count == |s.ring.fds| then SetSubmitter(s, j, SSleep(fd)).(owner := Free)
      else if s.stopping then SetSubmitter(s, j, SUnlock(fd, false))
      else SetSubmitter(s, j, SPut(fd))
    case SPut(fd) =>
      SetSubmitter(s, j, SSignal(fd)).(ring := Put(s.ring, fd), accepted := s.accepted + [fd])
    case SSignal(fd) => SetSubmitter(s, j, SUnlock(fd, true)).(workers := WakeWorker(s.workers, target))
    case SUnlock(fd, ok) =>
      if ok then SetSubmitter(s, j, SIdle).(owner := Free, granted := s.granted + [fd])
      else SetSubmitter(s, j, SClose(fd)).(owner := Free, refused := s.refused + [fd])
    case SClose(fd) => SetSubmitter(s, j, SIdle).(closed := s.closed + [fd])
    case SSleep(fd) => s
  }

  ghost function CloseStep(s: State): State {
    match s.closer
    case CIdle => s.(closer := CLock)
    case CLock => s.(closer := CFlag, owner := ByCloser)
    case CFlag => s.(closer := CWakeWorkers, stopping := true)
    case CWakeWorkers => s.(closer := CWakeSubmitters, workers := WakeAllWorkers(s.workers))
    case CWakeSubmitters => s.(closer := CUnlock, submitters := WakeAllSubmitters(s.submitters))
    case CUnlock => s.(closer := CJoin, owner := Free)
    case CJoin => s.(closer := CDone, freed := true)
    case CDone => s
  }

  ghost function Apply(s: State, step: Step): State
    requires Wf(s) && Enabled(s, step)
  {
    if Faults(s, step) then s.(faulted := true)
    else
    match step
    case Work(i, target) => WorkerStep(s, i, target)
    case Submit(j, target) => SubmitStep(s, j, target)
    case Close => CloseStep(s)
    case SpuriousWorker(i) => s.(workers := WakeWorker(s.workers, i))
    case SpuriousSubmitter(j) => s.(submitters := WakeSubmitter(s.submitters, j))
  }

  // ---------------------------------------------------------------- totals over threads

  ghost function Total<P>(ps: seq<P>, f: P -> int): int {
    if ps == [] then 0 else f(ps[0]) + Total(ps[1..], f)
  }

  lemma {:induction false} TotalUpdate<P>(ps: seq<P>, i: nat, p: P, f: P -> int)
    requires i < |ps|
    ensures Total(ps[i := p], f) == Total(ps, f) - f(ps[i]) + f(p)
  {
    if i == 0 {
      assert ps[0 := p][1..] == ps[1..];
    } else {
      assert ps[i := p][1..] == ps[1..][i - 1 := p];
      TotalUpdate(ps[1..], i - 1, p, f);
    }
  }

  lemma {:induction false} TotalZero<P>(ps: seq<P>, f: P -> int)
    requires forall i :: 0 <= i < |ps| ==> f(ps[i]) == 0
    ensures Total(ps, f) == 0
  {
    if ps != [] {
      assert forall i :: 0 <= i < |ps[1..]| ==> ps[1..][i] == ps[i + 1];
      TotalZero(ps[1..], f);
    }
  }

  lemma {:induction false} TotalPositive<P>(ps: seq<P>, f: P -> int)
    requires forall i :: 0 <= i < |ps| ==> 0 <= f(ps[i])
    ensures 0 <= Total(ps, f)
    ensures forall i :: 0 <= i < |ps| ==> f(ps[i]) <= Total(ps, f)
  {
    if ps != [] {
      assert forall i :: 0 <= i < |ps[1..]| ==> ps[1..][i] == ps[i + 1];
      TotalPositive(ps[1..], f);
      forall i | 0 <= i < |ps| ensures f(ps[i]) <= Total(ps, f) {
        assert i > 0 ==> ps[i] == ps[1..][i - 1];
      }
    }
  }

  // ---------------------------------------------------------------- the invariant

  /** The mutex is held by the thread whose program counter says so. */
  ghost predicate Locked(s: State) {
    && (forall i :: 0 <= i < |s.workers| ==> (WorkerHolds(s.workers[i]) <==> s.owner == ByWorker(i)))
    && (forall j :: 0 <= j < |s.submitters| ==> (SubmitterHolds(s.submitters[j].pc) <==> s.owner == BySubmitter(j)))
    && (CloserHolds(s.closer) <==> s.owner == ByCloser)
    && (s.owner.ByWorker? ==> s.owner.i < |s.workers|)
    && (s.owner.BySubmitter? ==> s.owner.j < |s.submitters|)
  }

  /** First in, first out. */
  ghost predicate Fifo(s: State)
    requires RingOk(s.ring)
  {
    s.accepted == s.taken + Queue(s.ring)
  }

  ghost function Count(q: seq<int>, x: int): int {
    multiset(q)[x]
  }

  /** 1 for a worker that has taken x and not yet handed it over. */
  ghost function Carries(x: int): WorkerPc -> int {
    (pc: WorkerPc) => if (pc.WSignal? || pc.WUnlock? || pc.WCall?) && pc.fd == x then 1 else 0
  }

  /** 1 for a submit that has stored x and not yet returned. */
  ghost function Grants(x: int): Submitter -> int {
    (sub: Submitter) => if (sub.pc.SSignal? || (sub.pc.SUnlock? && sub.pc.ok)) && sub.pc.fd == x then 1 else 0
  }

  /** 1 for a handler that has not closed x yet. */
  ghost function Handles(x: int): WorkerPc -> int {
    (pc: WorkerPc) => if pc.WHandle? && pc.fd == x then 1 else 0
  }

  /** 1 for the caller of a refused submit that has not closed x yet. */
  ghost function Closes(x: int): Submitter -> int {
    (sub: Submitter) => if sub.pc.SClose? && sub.pc.fd == x then 1 else 0
  }

  /** How often x is still to be submitted or being submitted without a decision carried out. */
  ghost function Open(x: int): Submitter -> int {
    (sub: Submitter) => Count(sub.todo, x) +
      (if sub.pc.SIdle? || sub.pc.SClose? || sub.pc.SSignal? || (sub.pc.SUnlock? && sub.pc.ok) || sub.pc.fd != x then 0
       else 1)
  }

  /** Every descriptor taken out is with a worker or was handed to the handler;
      every descriptor stored is granted or about to be; none of the offered ones is
      lost or doubled; and what was handed over or refused is closed or about to be. */
  ghost predicate AccountedFor(s: State, offered: multiset<int>, x: int) {
    && Count(s.taken, x) == Count(s.started, x) + Total(s.workers, Carries(x))
    && Count(s.accepted, x) == Count(s.granted, x) + Total(s.submitters, Grants(x))
    && offered[x] == Total(s.submitters, Open(x)) + Count(s.accepted, x) + Count(s.refused, x)
    && Count(s.closed, x) + Total(s.workers, Handles(x)) + Total(s.submitters, Closes(x))
       == Count(s.started, x) + Count(s.refused, x)
  }

  ghost predicate Accounted(s: State, offered: multiset<int>) {
    forall x :: AccountedFor(s, offered, x)
  }

  /** What shutdown has announced so far, and what follows for the others. */
  ghost predicate Closing(s: State) {
    && (s.stopping <==> !s.closer.CIdle? && !s.closer.CLock? && !s.closer.CFlag?)
    && (s.stopping && !s.closer.CWakeWorkers? ==> forall i :: 0 <= i < |s.workers| ==> !s.workers[i].WSleep?)
    && (s.stopping && !s.closer.CWakeWorkers? && !s.closer.CWakeSubmitters? ==>
      forall j :: 0 <= j < |s.submitters| ==> !s.submitters[j].pc.SSleep?)
    && (forall i :: 0 <= i < |s.workers| && (s.workers[i].WLeave? || s.workers[i].WDone?) ==>
      s.stopping && s.ring.count == 0)
    && (s.closer.CDone? ==> forall i :: 0 <= i < |s.workers| ==> s.workers[i].WDone?)
    && (s.freed <==> s.closer.CDone?)
    && (s.faulted ==> s.freed)
  }

  /** Before shutdown no submit is refused. */
  ghost predicate Unrefused(s: State) {
    !s.stopping ==>
      s.refused == [] && forall j :: 0 <= j < |s.submitters| && s.submitters[j].pc.SUnlock? ==> s.submitters[j].pc.ok
  }

  ghost function WSleeping(pc: WorkerPc): int { if pc.WSleep? then 1 else 0 }
  ghost function WAlert(pc: WorkerPc): int { if pc.WWake? || pc.WTest? || pc.WTake? then 1 else 0 }
  ghost function WSignaling(pc: WorkerPc): int { if pc.WSignal? then 1 else 0 }
  ghost function SSleeping(sub: Submitter): int { if sub.pc.SSleep? then 1 else 0 }
  ghost function SAlert(sub: Submitter): int { if sub.pc.SWake? || sub.pc.STest? || sub.pc.SPut? then 1 else 0 }
  ghost function SSignaling(sub: Submitter): int { if sub.pc.SSignal? then 1 else 0 }

  /** No lost wakeup: while a worker sleeps, every waiting task is matched by a
      worker on its way to the queue or by a signal about to be sent; and the same
      for submitters and free slots. */
  ghost predicate Wakeful(s: State) {
    && (Total(s.workers, WSleeping) > 0 ==>
      s.ring.count <= Total(s.workers, WAlert) + Total(s.submitters, SSignaling))
    && (Total(s.submitters, SSleeping) > 0 ==>
      |s.ring.fds| - s.ring.count <= Total(s.submitters, SAlert) + Total(s.workers, WSignaling))
  }

  ghost predicate Inv(s: State, offered: multiset<int>) {
    && Wf(s) && Locked(s) && Fifo(s) && Accounted(s, offered)
    && Closing(s) && Wakeful(s) && Unrefused(s)
  }

  // ---------------------------------------------------------------- every step keeps it

  /** Waking a sleeper gives the mutex to nobody. */
  lemma {:induction false} WakeHoldsNothing(ss: seq<Submitter>, target: nat)
    ensures |WakeSubmitter(ss, target)| == |ss|
    ensures forall j :: 0 <= j < |ss| ==> SubmitterHolds(WakeSubmitter(ss, target)[j].pc) == SubmitterHolds(ss[j].pc)
  {
  }

  lemma {:induction false} WakeWorkerHoldsNothing(ws: seq<WorkerPc>, target: nat)
    ensures |WakeWorker(ws, target)| == |ws|
    ensures forall i :: 0 <= i < |ws| ==> WorkerHolds(WakeWorker(ws, target)[i]) == WorkerHolds(ws[i])
  {
  }

  lemma {:induction false} WorkerFrame(s: State, i: nat, target: nat)
    requires Wf(s) && Sound(s, Work(i, target))
    ensures var s' := WorkerStep(s, i, target);
      && |s'.workers| == |s.workers| && s'.workers == s.workers[i := s'.workers[i]]
      && (s'.submitters == s.submitters || s'.submitters == WakeSubmitter(s.submitters, target))
      && s'.accepted == s.accepted && s'.granted == s.granted && s'.refused == s.refused
  {
    hide SubmitterTarget, WakeSubmitter, Take, RingOk;
  }

  lemma {:induction false} SubmitterSelf(s: State, j: nat, target: nat)
    requires Wf(s) && Sound(s, Submit(j, target))
    ensures var s' := SubmitStep(s, j, target);
      |s'.submitters| == |s.submitters| && s'.submitters == s.submitters[j := s'.submitters[j]]
  {
    hide WorkerTarget, WakeWorker, Put, RingOk;
  }

  lemma {:induction false} SubmitterOthers(s: State, j: nat, target: nat)
    requires Wf(s) && Sound(s, Submit(j, target))
    ensures var s' := SubmitStep(s, j, target);
      && (s'.workers == s.workers || s'.workers == WakeWorker(s.workers, target))
      && s'.taken == s.taken && s'.started == s.started
  {
    hide WorkerTarget, WakeWorker, Put, RingOk;
  }

  lemma {:induction false} SubmitterFrame(s: State, j: nat, target: nat)
    requires Wf(s) && Sound(s, Submit(j, target))
    ensures var s' := SubmitStep(s, j, target);
      && |s'.submitters| == |s.submitters| && s'.submitters == s.submitters[j := s'.submitters[j]]
      && (s'.workers == s.workers || s'.workers == WakeWorker(s.workers, target))
      && s'.taken == s.taken && s'.started == s.started
  {
    hide Wf, Enabled, Faults, SubmitStep, WakeWorker;
    SubmitterSelf(s, j, target);
    SubmitterOthers(s, j, target);
  }

  /** A worker's step takes the free mutex, gives its own back, or leaves it where it is. */
  lemma {:induction false} WorkerOwner(s: State, i: nat, target: nat)
    requires Wf(s) && Sound(s, Work(i, target)) && (WorkerHolds(s.workers[i]) <==> s.owner == ByWorker(i))
    ensures var s' := WorkerStep(s, i, target);
      && i < |s'.workers| && s'.closer == s.closer
      && (WorkerHolds(s'.workers[i]) <==> s'.owner == ByWorker(i))
      && (s'.owner == s.owner || (s.owner == Free && s'.owner == ByWorker(i))
          || (s.owner == ByWorker(i) && s'.owner == Free))
  {
    hide SubmitterTarget, WakeSubmitter, Take, RingOk;
  }

  lemma {:induction false} WorkerKeepsLock(s: State, i: nat, target: nat)
    requires Wf(s) && Locked(s) && Sound(s, Work(i, target))
    ensures Locked(WorkerStep(s, i, target))
  {
    assert i < |s.workers|;
    hide Wf, Enabled, Faults, WorkerStep, WakeSubmitter, WorkerHolds, SubmitterHolds, CloserHolds;
    WorkerFrame(s, i, target);
    WorkerOwner(s, i, target);
    WakeHoldsNothing(s.submitters, target);
  }

  lemma {:induction false} SubmitterOwner(s: State, j: nat, target: nat)
    requires Wf(s) && Sound(s, Submit(j, target)) && (SubmitterHolds(s.submitters[j].pc) <==> s.owner == BySubmitter(j))
    ensures var s' := SubmitStep(s, j, target);
      && j < |s'.submitters| && s'.closer == s.closer
      && (SubmitterHolds(s'.submitters[j].pc) <==> s'.owner == BySubmitter(j))
      && (s'.owner == s.owner || (s.owner == Free && s'.owner == BySubmitter(j))
          || (s.owner == BySubmitter(j) && s'.owner == Free))
  {
    hide WorkerTarget, WakeWorker, Put, RingOk;
  }

  lemma {:induction false} SubmitterKeepsLock(s: State, j: nat, target: nat)
    requires Wf(s) && Locked(s) && Sound(s, Submit(j, target))
    ensures Locked(SubmitStep(s, j, target))
  {
    assert j < |s.submitters|;
    hide Wf, Enabled, Faults, SubmitStep, WakeWorker, WorkerHolds, SubmitterHolds, CloserHolds;
    SubmitterFrame(s, j, target);
    SubmitterOwner(s, j, target);
    WakeWorkerHoldsNothing(s.workers, target);
  }

  lemma {:induction false} OtherKeepsLock(s: State, step: Step)
    requires Wf(s) && Locked(s) && Sound(s, step) && !step.Work? && !step.Submit?
    ensures Locked(Apply(s, step))
  {
    hide Wf;
  }

  lemma {:induction false} TakeShape(r: Ring)
    requires RingOk(r) && r.count > 0
    ensures r.head < |r.fds| && RingOk(Take(r)) && |Take(r).fds| == |r.fds| && Take(r).count == r.count - 1
  {
    TakeQueue(r);
  }

  lemma {:induction false} PutShape(r: Ring, fd: int)
    requires RingOk(r) && r.count < |r.fds|
    ensures r.tail < |r.fds| && RingOk(Put(r, fd)) && |Put(r, fd).fds| == |r.fds| && Put(r, fd).count == r.count + 1
  {
    PutQueue(r, fd);
  }

  lemma {:induction false} WorkerRing(s: State, i: nat, target: nat)
    requires Wf(s) && Sound(s, Work(i, target)) && (WorkerHolds(s.workers[i]) <==> s.owner == ByWorker(i))
    ensures var s' := WorkerStep(s, i, target);
      && i < |s'.workers| && s'.stopping == s.stopping && RingOk(s'.ring) && |s'.ring.fds| == |s.ring.fds|
      && (s'.ring == s.ring || (s.owner == ByWorker(i) && s'.ring.count < s.ring.count))
      && (s'.workers[i].WTake? ==> s.stopping || s'.ring.count > 0)
  {
    hide SubmitterTarget, Faults, RingOk, Take, WakeSubmitter;
    if s.workers[i].WTake? && !(s.stopping && s.ring.count == 0) {
      TakeShape(s.ring);
    }
  }

  lemma {:induction false} WakePutsNobody(ss: seq<Submitter>, target: nat)
    ensures |WakeSubmitter(ss, target)| == |ss|
    ensures forall j :: 0 <= j < |ss| && WakeSubmitter(ss, target)[j].pc.SPut? ==> ss[j].pc.SPut?
  {
  }

  lemma {:induction false} WorkerKeepsWf(s: State, i: nat, target: nat)
    requires Wf(s) && Locked(s) && Sound(s, Work(i, target))
    ensures Wf(WorkerStep(s, i, target))
  {
    assert i < |s.workers|;
    assert forall k :: 0 <= k < |s.workers| && s.workers[k].WTake? ==> s.owner == ByWorker(k);
    hide RingOk, Enabled, Faults, WorkerStep, WakeSubmitter, WorkerHolds, SubmitterHolds, CloserHolds;
    WorkerFrame(s, i, target);
    WorkerRing(s, i, target);
    WakePutsNobody(s.submitters, target);
  }

  lemma {:induction false} SubmitterRing(s: State, j: nat, target: nat)
    requires Wf(s) && Sound(s, Submit(j, target)) && (SubmitterHolds(s.submitters[j].pc) <==> s.owner == BySubmitter(j))
    ensures var s' := SubmitStep(s, j, target);
      && j < |s'.submitters| && s'.stopping == s.stopping && RingOk(s'.ring) && |s'.ring.fds| == |s.ring.fds|
      && (s'.ring == s.ring || (s.owner == BySubmitter(j) && s'.ring.count > s.ring.count))
      && (s'.submitters[j].pc.SPut? ==> !s.stopping && s'.ring.count < |s'.ring.fds|)
  {
    assert s.ring.count <= |s.ring.fds|;
    hide WorkerTarget, Faults, RingOk, Put, WakeWorker;
    if s.submitters[j].pc.SPut? {
      PutShape(s.ring, s.submitters[j].pc.fd);
    }
  }

  lemma {:induction false} WakeTakesNobody(ws: seq<WorkerPc>, target: nat)
    ensures |WakeWorker(ws, target)| == |ws|
    ensures forall i :: 0 <= i < |ws| && WakeWorker(ws, target)[i].WTake? ==> ws[i].WTake?
  {
  }

  lemma {:induction false} SubmitterKeepsWf(s: State, j: nat, target: nat)
    requires Wf(s) && Locked(s) && Sound(s, Submit(j, target))
    ensures Wf(SubmitStep(s, j, target))
  {
    assert j < |s.submitters|;
    assert forall k :: 0 <= k < |s.submitters| && s.submitters[k].pc.SPut? ==> s.owner == BySubmitter(k);
    hide RingOk, Enabled, Faults, SubmitStep, WakeWorker, WorkerHolds, SubmitterHolds, CloserHolds;
    SubmitterFrame(s, j, target);
    SubmitterRing(s, j, target);
    WakeTakesNobody(s.workers, target);
  }

  lemma {:induction false} OtherKeepsWf(s: State, step: Step)
    requires Wf(s) && Locked(s) && Sound(s, step) && !step.Work? && !step.Submit?
    ensures Wf(Apply(s, step))
  {
    hide RingOk;
  }

  lemma {:induction false} WorkerKeepsFifo(s: State, i: nat, target: nat)
    requires Wf(s) && Fifo(s) && Sound(s, Work(i, target)) && Wf(WorkerStep(s, i, target))
    ensures Fifo(WorkerStep(s, i, target))
  {
    if s.workers[i].WTake? && !(s.stopping && s.ring.count == 0) {
      TakeQueue(s.ring);
      var q := Queue(s.ring);
      assert s.taken + q == s.taken + [q[0]] + q[1..];
    }
    hide SubmitterTarget, RingOk, Queue;
  }

  lemma {:induction false} SubmitterKeepsFifo(s: State, j: nat, target: nat)
    requires Wf(s) && Fifo(s) && Sound(s, Submit(j, target)) && Wf(SubmitStep(s, j, target))
    ensures Fifo(SubmitStep(s, j, target))
  {
    if s.submitters[j].pc.SPut? {
      PutQueue(s.ring, s.submitters[j].pc.fd);
    }
    hide WorkerTarget, RingOk, Queue;
  }

  lemma {:induction false} WorkerKeepsClosing(s: State, i: nat, target: nat)
    requires Wf(s) && Locked(s) && Closing(s) && Sound(s, Work(i, target))
    ensures Closing(WorkerStep(s, i, target))
  {
    hide RingOk, SubmitterTarget;
  }

  lemma {:induction false} SubmitterKeepsClosing(s: State, j: nat, target: nat)
    requires Wf(s) && Locked(s) && Closing(s) && Sound(s, Submit(j, target))
    ensures Closing(SubmitStep(s, j, target))
  {
    hide RingOk;
  }

  lemma {:induction false} OtherKeepsClosing(s: State, step: Step)
    requires Wf(s) && Locked(s) && Closing(s) && Sound(s, step) && !step.Work? && !step.Submit?
    ensures Closing(Apply(s, step))
  {
    hide RingOk;
  }

  lemma {:induction false} CountAppend(q: seq<int>, fd: int, x: int)
    ensures Count(q + [fd], x) == Count(q, x) + (if fd == x then 1 else 0)
  {
  }

  lemma {:induction false} CountFirst(q: seq<int>, x: int)
    requires q != []
    ensures Count(q, x) == (if q[0] == x then 1 else 0) + Count(q[1..], x)
  {
    assert q == [q[0]] + q[1..];
  }

  /** Waking a thread leaves it with the descriptor that it had. */
  lemma {:induction false} WakeKeepsCarried(ws: seq<WorkerPc>, target: nat, x: int)
    ensures Total(WakeWorker(ws, target), Carries(x)) == Total(ws, Carries(x))
    ensures Total(WakeAllWorkers(ws), Carries(x)) == Total(ws, Carries(x))
    ensures Total(WakeWorker(ws, target), Handles(x)) == Total(ws, Handles(x))
    ensures Total(WakeAllWorkers(ws), Handles(x)) == Total(ws, Handles(x))
  {
    TotalSame(WakeWorker(ws, target), ws, Carries(x));
    TotalSame(WakeAllWorkers(ws), ws, Carries(x));
    TotalSame(WakeWorker(ws, target), ws, Handles(x));
    TotalSame(WakeAllWorkers(ws), ws, Handles(x));
  }

  lemma {:induction false} WakeKeepsClosed(ss: seq<Submitter>, target: nat, x: int)
    ensures Total(WakeSubmitter(ss, target), Closes(x)) == Total(ss, Closes(x))
    ensures Total(WakeAllSubmitters(ss), Closes(x)) == Total(ss, Closes(x))
  {
    TotalSame(WakeSubmitter(ss, target), ss, Closes(x));
    TotalSame(WakeAllSubmitters(ss), ss, Closes(x));
  }

  lemma {:induction false} WakeKeepsCounts(ws: seq<WorkerPc>, ss: seq<Submitter>, target: nat, x: int)
    ensures Total(WakeWorker(ws, target), Carries(x)) == Total(ws, Carries(x))
    ensures Total(WakeAllWorkers(ws), Carries(x)) == Total(ws, Carries(x))
    ensures Total(WakeSubmitter(ss, target), Grants(x)) == Total(ss, Grants(x))
    ensures Total(WakeSubmitter(ss, target), Open(x)) == Total(ss, Open(x))
    ensures Total(WakeAllSubmitters(ss), Grants(x)) == Total(ss, Grants(x))
    ensures Total(WakeAllSubmitters(ss), Open(x)) == Total(ss, Open(x))
    ensures Total(WakeWorker(ws, target), Handles(x)) == Total(ws, Handles(x))
    ensures Total(WakeAllWorkers(ws), Handles(x)) == Total(ws, Handles(x))
    ensures Total(WakeSubmitter(ss, target), Closes(x)) == Total(ss, Closes(x))
    ensures Total(WakeAllSubmitters(ss), Closes(x)) == Total(ss, Closes(x))
  {
    WakeKeepsCarried(ws, target, x);
    WakeKeepsClosed(ss, target, x);
    hide WakeWorker, WakeAllWorkers, Carries, Handles, Closes;
    TotalSame(WakeSubmitter(ss, target), ss, Grants(x));
    TotalSame(WakeSubmitter(ss, target), ss, Open(x));
    TotalSame(WakeAllSubmitters(ss), ss, Grants(x));
    TotalSame(WakeAllSubmitters(ss), ss, Open(x));
  }

  /** A worker's step moves one descriptor along or none. */
  lemma {:induction false} WorkerHistory(s: State, i: nat, target: nat, x: int)
    requires Wf(s) && Sound(s, Work(i, target))
    ensures var s' := WorkerStep(s, i, target);
      i < |s'.workers| &&
      Count(s'.taken, x) - Count(s'.started, x) - Carries(x)(s'.workers[i])
      == Count(s.taken, x) - Count(s.started, x) - Carries(x)(s.workers[i])
      && Count(s'.closed, x) + Handles(x)(s'.workers[i]) - Count(s'.started, x)
      == Count(s.closed, x) + Handles(x)(s.workers[i]) - Count(s.started, x)
  {
    hide SubmitterTarget, WakeSubmitter, Queue, Count;
    var s' := WorkerStep(s, i, target);
    if s.workers[i].WTake? && !(s.stopping && s.ring.count == 0) {
      CountAppend(s.taken, s'.workers[i].fd, x);
    } else if s.workers[i].WCall? {
      CountAppend(s.started, s.workers[i].fd, x);
    } else if s.workers[i].WHandle? {
      CountAppend(s.closed, s.workers[i].fd, x);
    }
  }

  lemma {:induction false} WorkerKeepsAccount(s: State, i: nat, target: nat, offered: multiset<int>, x: int)
    requires Wf(s) && AccountedFor(s, offered, x) && Sound(s, Work(i, target))
    ensures AccountedFor(WorkerStep(s, i, target), offered, x)
  {
    hide Wf, Enabled, WorkerStep, WakeSubmitter, Total, Count, Carries, Grants, Open, Handles, Closes, Faults;
    WorkerFrame(s, i, target);
    WorkerHistory(s, i, target, x);
    WakeKeepsCounts(s.workers, s.submitters, target, x);
    TotalUpdate(s.workers, i, WorkerStep(s, i, target).workers[i], Carries(x));
    TotalUpdate(s.workers, i, WorkerStep(s, i, target).workers[i], Handles(x));
  }

  /** A submitter's step decides on one descriptor, reports a decision, or neither. */
  lemma {:induction false} SubmitterHistory(s: State, j: nat, target: nat, x: int)
    requires Wf(s) && Sound(s, Submit(j, target))
    ensures var s' := SubmitStep(s, j, target);
      && j < |s'.submitters|
      && Count(s'.accepted, x) - Count(s'.granted, x) - Grants(x)(s'.submitters[j])
      == Count(s.accepted, x) - Count(s.granted, x) - Grants(x)(s.submitters[j])
      && Open(x)(s'.submitters[j]) + Count(s'.accepted, x) + Count(s'.refused, x)
      == Open(x)(s.submitters[j]) + Count(s.accepted, x) + Count(s.refused, x)
      && Count(s'.closed, x) + Closes(x)(s'.submitters[j]) - Count(s'.refused, x)
      == Count(s.closed, x) + Closes(x)(s.submitters[j]) - Count(s.refused, x)
  {
    hide WorkerTarget, WakeWorker, Queue, Count;
    var sub := s.submitters[j];
    if sub.pc.SIdle? {
      CountFirst(sub.todo, x);
    } else if sub.pc.SPut? {
      CountAppend(s.accepted, sub.pc.fd, x);
    } else if sub.pc.SUnlock? {
      CountAppend(s.granted, sub.pc.fd, x);
      CountAppend(s.refused, sub.pc.fd, x);
    } else if sub.pc.SClose? {
      CountAppend(s.closed, sub.pc.fd, x);
    }
  }

  lemma {:induction false} SubmitterKeepsAccount(s: State, j: nat, target: nat, offered: multiset<int>, x: int)
    requires Wf(s) && AccountedFor(s, offered, x) && Sound(s, Submit(j, target))
    ensures AccountedFor(SubmitStep(s, j, target), offered, x)
  {
    hide Wf, Enabled, SubmitStep, WakeWorker, Total, Count, Carries, Grants, Open, Handles, Closes, Faults;
    SubmitterFrame(s, j, target);
    SubmitterHistory(s, j, target, x);
    WakeKeepsCounts(s.workers, s.submitters, target, x);
    TotalUpdate(s.submitters, j, SubmitStep(s, j, target).submitters[j], Grants(x));
    TotalUpdate(s.submitters, j, SubmitStep(s, j, target).submitters[j], Open(x));
    TotalUpdate(s.submitters, j, SubmitStep(s, j, target).submitters[j], Closes(x));
  }

  lemma {:induction false} WakeSubmitterTotals(ss: seq<Submitter>, target: nat)
    requires SubmitterTarget(ss, target)
    ensures var ss' := WakeSubmitter(ss, target);
      && Total(ss', SSleeping) <= Total(ss, SSleeping)
      && Total(ss', SSignaling) == Total(ss, SSignaling)
      && (Total(ss, SSleeping) > 0 ==> Total(ss', SAlert) == Total(ss, SAlert) + 1)
  {
    if SubmitterSleeps(ss, target) {
      var sub := ss[target].(pc := SWake(ss[target].pc.fd));
      TotalUpdate(ss, target, sub, SSleeping);
      TotalUpdate(ss, target, sub, SSignaling);
      TotalUpdate(ss, target, sub, SAlert);
    } else {
      forall j | 0 <= j < |ss| ensures SSleeping(ss[j]) == 0 {
        assert !SubmitterSleeps(ss, j);
      }
      TotalZero(ss, SSleeping);
    }
  }

  lemma {:induction false} WakeWorkerTotals(ws: seq<WorkerPc>, target: nat)
    requires WorkerTarget(ws, target)
    ensures var ws' := WakeWorker(ws, target);
      && Total(ws', WSleeping) <= Total(ws, WSleeping)
      && Total(ws', WSignaling) == Total(ws, WSignaling)
      && (Total(ws, WSleeping) > 0 ==> Total(ws', WAlert) == Total(ws, WAlert) + 1)
  {
    if WorkerSleeps(ws, target) {
      TotalUpdate(ws, target, WWake, WSleeping);
      TotalUpdate(ws, target, WWake, WSignaling);
      TotalUpdate(ws, target, WWake, WAlert);
    } else {
      forall i | 0 <= i < |ws| ensures WSleeping(ws[i]) == 0 {
        assert !WorkerSleeps(ws, i);
      }
      TotalZero(ws, WSleeping);
    }
  }

  lemma {:induction false} TotalsNonneg(s: State)
    ensures 0 <= Total(s.workers, WAlert) && 0 <= Total(s.workers, WSignaling)
    ensures 0 <= Total(s.submitters, SAlert) && 0 <= Total(s.submitters, SSignaling)
  {
    TotalPositive(s.workers, WAlert);
    TotalPositive(s.workers, WSignaling);
    TotalPositive(s.submitters, SAlert);
    TotalPositive(s.submitters, SSignaling);
  }

  lemma {:induction false} WorkerKeepsWakeful(s: State, i: nat, target: nat)
    requires Wf(s) && Wakeful(s) && Sound(s, Work(i, target))
    ensures Wakeful(WorkerStep(s, i, target))
  {
    hide RingOk, WakeSubmitter, Queue;
    WorkerFrame(s, i, target);
    var s' := WorkerStep(s, i, target);
    TotalUpdate(s.workers, i, s'.workers[i], WSleeping);
    TotalUpdate(s.workers, i, s'.workers[i], WAlert);
    TotalUpdate(s.workers, i, s'.workers[i], WSignaling);
    TotalsNonneg(s');
    if s.workers[i].WSignal? {
      WakeSubmitterTotals(s.submitters, target);
    }
  }

  lemma {:induction false} SubmitterKeepsWakeful(s: State, j: nat, target: nat)
    requires Wf(s) && Locked(s) && Closing(s) && Wakeful(s) && Sound(s, Submit(j, target))
    ensures Wakeful(SubmitStep(s, j, target))
  {
    hide WakeWorker, Queue;
    SubmitterFrame(s, j, target);
    var s' := SubmitStep(s, j, target);
    TotalUpdate(s.submitters, j, s'.submitters[j], SSleeping);
    TotalUpdate(s.submitters, j, s'.submitters[j], SAlert);
    TotalUpdate(s.submitters, j, s'.submitters[j], SSignaling);
    TotalsNonneg(s');
    if s.submitters[j].pc.SSignal? {
      WakeWorkerTotals(s.workers, target);
    }
    if s.submitters[j].pc.STest? && s.stopping {
      assert s.owner == BySubmitter(j);
      TotalZero(s.submitters, SSleeping);
    }
  }

  lemma {:induction false} OtherKeepsAccount(s: State, step: Step, offered: multiset<int>, x: int)
    requires Wf(s) && AccountedFor(s, offered, x) && Sound(s, step) && !step.Work? && !step.Submit?
    ensures AccountedFor(Apply(s, step), offered, x)
  {
    hide RingOk, Total, Count, WakeWorker, WakeSubmitter, WakeAllWorkers, WakeAllSubmitters;
    var target := match step case SpuriousWorker(i) => i case SpuriousSubmitter(j) => j case _ => 0;
    WakeKeepsCounts(s.workers, s.submitters, target, x);
  }

  lemma {:induction false} OtherKeepsWakeful(s: State, step: Step)
    requires Wf(s) && Wakeful(s) && Sound(s, step) && !step.Work? && !step.Submit?
    ensures Wakeful(Apply(s, step))
  {
    hide RingOk;
    var s' := Apply(s, step);
    TotalsNonneg(s);
    match step
    case Close =>
      if s.closer.CWakeWorkers? {
        TotalZero(s'.workers, WSleeping);
        TotalSame(s.workers, s'.workers, WSignaling);
      } else if s.closer.CWakeSubmitters? {
        TotalZero(s'.submitters, SSleeping);
        TotalSame(s.submitters, s'.submitters, SSignaling);
      }
    case SpuriousWorker(i) =>
      WakeWorkerTotals(s.workers, i);
    case SpuriousSubmitter(j) =>
      WakeSubmitterTotals(s.submitters, j);
  }

  lemma {:induction false} TotalSame<P>(ps: seq<P>, qs: seq<P>, f: P -> int)
    requires |ps| == |qs| && forall i :: 0 <= i < |ps| ==> f(ps[i]) == f(qs[i])
    ensures Total(ps, f) == Total(qs, f)
  {
    if ps != [] {
      assert forall i :: 0 <= i < |ps[1..]| ==> ps[1..][i] == ps[i + 1] && qs[1..][i] == qs[i + 1];
      TotalSame(ps[1..], qs[1..], f);
    }
  }

  lemma {:induction false} StepKeepsLock(s: State, step: Step)
    requires Wf(s) && Locked(s) && Sound(s, step)
    ensures Wf(Apply(s, step)) && Locked(Apply(s, step))
  {
    hide Wf, Locked, Enabled, Faults, WorkerStep, SubmitStep, CloseStep, WakeWorker, WakeSubmitter;
    match step
    case Work(i, target) =>
      WorkerKeepsLock(s, i, target);
      WorkerKeepsWf(s, i, target);
    case Submit(j, target) =>
      SubmitterKeepsLock(s, j, target);
      SubmitterKeepsWf(s, j, target);
    case _ =>
      OtherKeepsLock(s, step);
      OtherKeepsWf(s, step);
  }

  lemma {:induction false} StepKeepsAccounts(s: State, step: Step, offered: multiset<int>)
    requires Wf(s) && Accounted(s, offered) && Sound(s, step)
    ensures Accounted(Apply(s, step), offered)
  {
    hide Wf, Enabled, Faults, WorkerStep, SubmitStep, CloseStep, WakeWorker, WakeSubmitter, AccountedFor;
    forall x ensures AccountedFor(Apply(s, step), offered, x) {
      assert AccountedFor(s, offered, x);
      match step
      case Work(i, target) => WorkerKeepsAccount(s, i, target, offered, x);
      case Submit(j, target) => SubmitterKeepsAccount(s, j, target, offered, x);
      case _ => OtherKeepsAccount(s, step, offered, x);
    }
  }

  lemma {:induction false} WakeKeepsDecisions(ss: seq<Submitter>, target: nat)
    ensures |WakeSubmitter(ss, target)| == |WakeAllSubmitters(ss)| == |ss|
    ensures forall j :: 0 <= j < |ss| && WakeSubmitter(ss, target)[j].pc.SUnlock? ==>
      WakeSubmitter(ss, target)[j] == ss[j]
    ensures forall j :: 0 <= j < |ss| && WakeAllSubmitters(ss)[j].pc.SUnlock? ==> WakeAllSubmitters(ss)[j] == ss[j]
  {
  }

  lemma {:induction false} WorkerKeepsUnrefused(s: State, i: nat, target: nat)
    requires Wf(s) && Unrefused(s) && Sound(s, Work(i, target))
    ensures Unrefused(WorkerStep(s, i, target))
  {
    hide RingOk, SubmitterTarget, Take, WakeSubmitter;
    WakeKeepsDecisions(s.submitters, target);
  }

  lemma {:induction false} SubmitterKeepsUnrefused(s: State, j: nat, target: nat)
    requires Wf(s) && Unrefused(s) && Sound(s, Submit(j, target))
    ensures Unrefused(SubmitStep(s, j, target))
  {
    hide RingOk, WorkerTarget, Put, WakeWorker;
  }

  lemma {:induction false} OtherKeepsUnrefused(s: State, step: Step)
    requires Wf(s) && Unrefused(s) && Sound(s, step) && !step.Work? && !step.Submit?
    ensures Unrefused(Apply(s, step))
  {
    hide RingOk, WakeSubmitter, WakeAllSubmitters, WakeWorker, WakeAllWorkers;
    WakeKeepsDecisions(s.submitters, if step.SpuriousSubmitter? then step.j else 0);
  }

  lemma {:induction false} SoundKeepsInv(s: State, step: Step, offered: multiset<int>)
    requires Inv(s, offered) && Sound(s, step)
    ensures Inv(Apply(s, step), offered)
  {
    hide Wf, Enabled, Faults, Locked, Fifo, Accounted, Closing, Wakeful, Unrefused, WorkerStep, SubmitStep;
    StepKeepsLock(s, step);
    StepKeepsAccounts(s, step, offered);
    match step
    case Work(i, target) =>
      WorkerKeepsFifo(s, i, target);
      WorkerKeepsClosing(s, i, target);
      WorkerKeepsWakeful(s, i, target);
      WorkerKeepsUnrefused(s, i, target);
    case Submit(j, target) =>
      SubmitterKeepsFifo(s, j, target);
      SubmitterKeepsClosing(s, j, target);
      SubmitterKeepsWakeful(s, j, target);
      SubmitterKeepsUnrefused(s, j, target);
    case _ =>
      OtherKeepsFifo(s, step);
      OtherKeepsClosing(s, step);
      OtherKeepsWakeful(s, step);
      OtherKeepsUnrefused(s, step);
  }

  /** A fault is only noted; nothing is said about the state after it. */
  lemma {:induction false} FaultKeepsInv(s: State, step: Step, offered: multiset<int>)
    requires Inv(s, offered) && Enabled(s, step) && Faults(s, step)
    ensures Inv(Apply(s, step), offered) && Apply(s, step) == s.(faulted := true)
  {
    hide RingOk, Queue, Total, Count, Enabled;
    var t := Apply(s, step);
    forall x ensures AccountedFor(t, offered, x) {
      assert AccountedFor(s, offered, x);
    }
  }

  /** Every step of every thread keeps the invariant. */
  lemma {:induction false} StepKeepsInv(s: State, step: Step, offered: multiset<int>)
    requires Inv(s, offered) && Enabled(s, step)
    ensures Inv(Apply(s, step), offered)
  {
    hide Inv, Enabled, Faults, Apply;
    if Faults(s, step) {
      FaultKeepsInv(s, step, offered);
    } else {
      SoundKeepsInv(s, step, offered);
    }
  }

  lemma {:induction false} OtherKeepsFifo(s: State, step: Step)
    requires Wf(s) && Fifo(s) && Sound(s, step) && !step.Work? && !step.Submit?
    ensures RingOk(Apply(s, step).ring) && Fifo(Apply(s, step))
  {
    hide Queue;
  }

  // ---------------------------------------------------------------- runs

  /** A fresh pool, any number of workers, and submitters with any tasks ahead. */
  ghost predicate Init(s: State, offered: multiset<int>) {
    && RingOk(s.ring) && s.ring.count == 0 && !s.stopping && s.owner == Free
    && (forall i :: 0 <= i < |s.workers| ==> s.workers[i].WLock?)
    && (forall j :: 0 <= j < |s.submitters| ==> s.submitters[j].pc.SIdle?)
    && s.closer.CIdle?
    && s.accepted == s.taken == s.started == s.granted == s.refused == s.closed == []
    && !s.freed && !s.faulted
    && (forall x :: offered[x] == Total(s.submitters, Open(x)))
  }

  lemma {:induction false} InitInv(s: State, offered: multiset<int>)
    requires Init(s, offered)
    ensures Inv(s, offered)
  {
    forall x ensures AccountedFor(s, offered, x) {
      TotalZero(s.workers, Carries(x));
      TotalZero(s.submitters, Grants(x));
      TotalZero(s.workers, Handles(x));
      TotalZero(s.submitters, Closes(x));
    }
    TotalZero(s.workers, WSleeping);
    TotalZero(s.submitters, SSleeping);
  }

  /** t is where the steps lead from s.  A step is defined on a state whose ring is
      in order, and it is shown below that every state of a run is one; until then any
      state may follow on another one. */
  ghost predicate Reaches(s: State, steps: seq<Step>, t: State)
    decreases |steps|
  {
    if steps == [] then s == t
    else Enabled(s, steps[0]) && (Wf(s) ==> Reaches(Apply(s, steps[0]), steps[1..], t))
  }

  lemma {:induction false} RunKeepsInv(s: State, steps: seq<Step>, t: State, offered: multiset<int>)
    requires Inv(s, offered) && Reaches(s, steps, t)
    ensures Inv(t, offered)
    decreases |steps|
  {
    hide Wf, Locked, Fifo, Accounted, Closing, Wakeful, Enabled, Apply;
    if steps != [] {
      StepKeepsInv(s, steps[0], offered);
      RunKeepsInv(Apply(s, steps[0]), steps[1..], t, offered);
    }
  }

  // ---------------------------------------------------------------- progress

  /** No thread can move on its own: only a spurious wakeup or a first call of
      shutdown is possible. */
  ghost predicate Stuck(s: State) {
    && (forall i, target :: !Enabled(s, Work(i, target)))
    && (forall j, target :: !Enabled(s, Submit(j, target)))
    && (s.closer.CIdle? || !Enabled(s, Close))
  }

  /** The owner of the mutex never waits for another thread. */
  lemma {:induction false} OwnerCanMove(s: State, offered: multiset<int>)
    requires Inv(s, offered) && s.owner != Free && !s.faulted
    ensures s.owner.ByWorker? ==> exists target :: Enabled(s, Work(s.owner.i, target))
    ensures s.owner.BySubmitter? ==> exists target :: Enabled(s, Submit(s.owner.j, target))
    ensures s.owner.ByCloser? ==> Enabled(s, Close) && !s.closer.CIdle?
    ensures !Stuck(s)
  {
    if s.owner.ByWorker? {
      var k: nat := if k: nat :| SubmitterSleeps(s.submitters, k) then k else 0;
      assert Enabled(s, Work(s.owner.i, k));
    } else if s.owner.BySubmitter? {
      var k: nat := if k: nat :| WorkerSleeps(s.workers, k) then k else 0;
      assert Enabled(s, Submit(s.owner.j, k));
    } else {
      assert Enabled(s, Close);
    }
  }

  lemma {:induction false} StuckWorkers(s: State, offered: multiset<int>)
    requires Inv(s, offered) && Stuck(s) && !s.faulted
    ensures s.owner == Free
    ensures forall i :: 0 <= i < |s.workers| ==> s.workers[i].WSleep? || s.workers[i].WDone?
  {
    if s.owner != Free {
      OwnerCanMove(s, offered);
    }
    forall i | 0 <= i < |s.workers| ensures s.workers[i].WSleep? || s.workers[i].WDone? {
      assert !Enabled(s, Work(i, 0));
    }
  }

  ghost predicate SubmittersRest(s: State) {
    forall j :: 0 <= j < |s.submitters| ==> s.submitters[j].pc.SIdle? && s.submitters[j].todo == []
  }

  lemma {:induction false} StuckSubmitters(s: State, offered: multiset<int>)
    requires Inv(s, offered) && Stuck(s) && !s.faulted
    ensures forall j :: 0 <= j < |s.submitters| ==>
      s.submitters[j].pc.SSleep? || (s.submitters[j].pc.SIdle? && s.submitters[j].todo == [])
  {
    StuckWorkers(s, offered);
    forall j | 0 <= j < |s.submitters|
      ensures s.submitters[j].pc.SSleep? || (s.submitters[j].pc.SIdle? && s.submitters[j].todo == [])
    {
      assert !Enabled(s, Submit(j, 0));
      assert SubmitterHolds(s.submitters[j].pc) <==> s.owner == BySubmitter(j);
    }
  }

  /** A running pool stops moving only when it is idle: the queue is empty, every
      worker waits for tasks and no submit is waiting for room. */
  lemma {:induction false} StuckWhileOpen(s: State, offered: multiset<int>)
    requires Inv(s, offered) && Stuck(s) && |s.workers| > 0 && !s.stopping
    ensures s.ring.count == 0 && SubmittersRest(s) && s.closer.CIdle?
    ensures forall i :: 0 <= i < |s.workers| ==> s.workers[i].WSleep?
  {
    StuckWorkers(s, offered);
    StuckSubmitters(s, offered);
    TotalPositive(s.workers, WSleeping);
    assert WSleeping(s.workers[0]) == 1;
    TotalZero(s.workers, WAlert);
    TotalZero(s.workers, WSignaling);
    TotalZero(s.submitters, SSignaling);
    TotalZero(s.submitters, SAlert);
    TotalPositive(s.submitters, SSleeping);
    forall j | 0 <= j < |s.submitters| ensures !s.submitters[j].pc.SSleep? {
      assert SSleeping(s.submitters[j]) <= Total(s.submitters, SSleeping);
    }
    assert s.closer.CLock? ==> Enabled(s, Close);
  }

  /** After shutdown the pool stops moving only when every worker has exited, or a
      thread has used the pool after it was freed. */
  lemma {:induction false} StuckAfterClose(s: State, offered: multiset<int>)
    requires Inv(s, offered) && Stuck(s) && |s.workers| > 0 && s.stopping && !s.faulted
    ensures s.closer.CDone? && s.ring.count == 0 && SubmittersRest(s)
    ensures forall i :: 0 <= i < |s.workers| ==> s.workers[i].WDone?
  {
    StuckWorkers(s, offered);
    StuckSubmitters(s, offered);
    assert s.closer.CJoin? || s.closer.CDone?;
    assert s.closer.CJoin? ==> Enabled(s, Close);
    assert s.workers[0].WDone?;
  }

  /** What has happened once nobody carries a descriptor: every accepted one was taken
      out in order and handed to the handler once, its submit returned 1, every other
      offered one was refused once, and each of them was closed once. */
  lemma {:induction false} Settled(s: State, offered: multiset<int>)
    requires Inv(s, offered) && s.ring.count == 0 && SubmittersRest(s)
    requires forall i :: 0 <= i < |s.workers| ==> s.workers[i].WSleep? || s.workers[i].WDone?
    ensures s.taken == s.accepted && Queue(s.ring) == []
    ensures multiset(s.started) == multiset(s.accepted) == multiset(s.granted)
    ensures offered == multiset(s.granted) + multiset(s.refused) == multiset(s.closed)
  {
    hide Locked, Closing, Wakeful, Unrefused;
    forall x ensures Count(s.started, x) == Count(s.taken, x) && Count(s.granted, x) == Count(s.accepted, x)
                  && offered[x] == Count(s.granted, x) + Count(s.refused, x) == Count(s.closed, x)
    {
      SettledCounts(s, offered, x);
    }
    SameCounts(s.started, s.taken);
    SameCounts(s.granted, s.accepted);
    forall x ensures offered[x] == (multiset(s.granted) + multiset(s.refused))[x] == multiset(s.closed)[x] {
      assert offered[x] == Count(s.granted, x) + Count(s.refused, x) == Count(s.closed, x);
    }
  }

  lemma {:induction false} SettledCounts(s: State, offered: multiset<int>, x: int)
    requires AccountedFor(s, offered, x) && SubmittersRest(s)
    requires RingOk(s.ring) && Fifo(s) && s.ring.count == 0
    requires forall i :: 0 <= i < |s.workers| ==> s.workers[i].WSleep? || s.workers[i].WDone?
    ensures Count(s.started, x) == Count(s.taken, x) && Count(s.granted, x) == Count(s.accepted, x)
    ensures offered[x] == Count(s.granted, x) + Count(s.refused, x) == Count(s.closed, x)
  {
    TotalZero(s.workers, Carries(x));
    TotalZero(s.workers, Handles(x));
    TotalZero(s.submitters, Grants(x));
    TotalZero(s.submitters, Open(x));
    TotalZero(s.submitters, Closes(x));
    assert s.taken == s.accepted;
  }

  lemma {:induction false} SameCounts(a: seq<int>, b: seq<int>)
    requires forall x :: Count(a, x) == Count(b, x)
    ensures multiset(a) == multiset(b)
  {
    forall x ensures multiset(a)[x] == multiset(b)[x] {
      assert Count(a, x) == Count(b, x);
    }
  }

  /** A stopped pool in which nobody can move has delivered what it accepted. */
  lemma {:induction false} Delivered(s: State, offered: multiset<int>)
    requires Inv(s, offered) && Stuck(s) && |s.workers| > 0 && s.stopping && !s.faulted
    ensures s.taken == s.accepted && Queue(s.ring) == []
    ensures multiset(s.started) == multiset(s.accepted) == multiset(s.granted)
    ensures offered == multiset(s.granted) + multiset(s.refused) == multiset(s.closed)
  {
    StuckAfterClose(s, offered);
    Settled(s, offered);
  }

  /** So has an open one, without any shutdown, and it has refused nothing. */
  lemma {:induction false} DeliveredWhileOpen(s: State, offered: multiset<int>)
    requires Inv(s, offered) && Stuck(s) && |s.workers| > 0 && !s.stopping
    ensures s.taken == s.accepted && Queue(s.ring) == []
    ensures offered == multiset(s.started) == multiset(s.granted) == multiset(s.closed) && s.refused == []
  {
    StuckWhileOpen(s, offered);
    Settled(s, offered);
  }
}

/** Exclusion, lock hand-over, sleep locks and veto accounting, over every run from a start state. */
module KernelTheorems {
  import opened Options
  import opened Kernel
  import opened KernelInv

  // ---------------------------------------------------------------- runs

  /** Every scheduler is about to start, and the table holds free slots and processes forked before. */
  ghost predicate Init(v0: int, s: State) {
    && Shape(s) && !s.fault && |s.pcP| > 0 && s.pl == None
    && (forall l: nat :: l < |s.al| ==> s.al[l] == None && s.locked[l] == None)
    && (forall c: nat :: c < |s.cur| ==> s.cur[c] == Sched(c) && s.pcS[c] == At(SchedTop(0)) && !s.savedS[c] && s.vetoS[c] == 0)
    && (forall p: nat :: p < |s.pcP| ==>
          && s.pcP[p] == At(First) && s.vetoP[p] == v0 && s.owns[p] == {}
          && s.status[p] == (if s.savedP[p] then Runnable else Idle))
  }

  lemma InitInv(v0: int, s: State)
    requires Init(v0, s)
    ensures Inv(s)
  {
    forall c: nat | c < |s.cur|
      ensures CpuOk(s, c)
    {
      assert CurPc(s, c) == At(SchedTop(0));
    }
  }

  predicate InBounds(s: State, steps: seq<(nat, Choice)>) {
    forall i :: 0 <= i < |steps| ==> steps[i].0 < |s.cur|
  }

  ghost predicate Reachable(v0: int, s: State) {
    exists s0: State, steps: seq<(nat, Choice)> :: Init(v0, s0) && InBounds(s0, steps) && s == Run(v0, s0, steps)
  }

  lemma ReachableInv(v0: int, s: State)
    requires Reachable(v0, s)
    ensures Inv(s)
  {
    var s0: State, steps: seq<(nat, Choice)> :| Init(v0, s0) && InBounds(s0, steps) && s == Run(v0, s0, steps);
    InitInv(v0, s0);
    RunKeeps(v0, s0, steps);
  }

  lemma {:induction false} RunExtends(v0: int, s: State, steps: seq<(nat, Choice)>, c: nat, ch: Choice)
    requires Shape(s) && InBounds(s, steps) && c < |s.cur|
    ensures InBounds(s, steps + [(c, ch)])
    ensures Run(v0, s, steps + [(c, ch)]) == Step(v0, Run(v0, s, steps), c, ch)
    decreases |steps|
  {
    hide Step;
    var more := steps + [(c, ch)];
    if steps == [] {
      assert more[1..] == [];
    } else {
      assert more[1..] == steps[1..] + [(c, ch)];
      RunExtends(v0, Step(v0, s, steps[0].0, steps[0].1), steps[1..], c, ch);
    }
  }

  lemma ReachableStep(v0: int, s: State, c: nat, ch: Choice)
    requires Reachable(v0, s) && Shape(s) && c < |s.cur|
    ensures Reachable(v0, Step(v0, s, c, ch))
  {
    hide Step, Run;
    var s0: State, steps: seq<(nat, Choice)> :| Init(v0, s0) && InBounds(s0, steps) && s == Run(v0, s0, steps);
    InitShape(v0, s0);
    RunExtends(v0, s0, steps, c, ch);
  }

  lemma InitShape(v0: int, s: State)
    requires Init(v0, s)
    ensures Shape(s)
  {
  }

  // ---------------------------------------------------------------- exclusion

  predicate Executes(s: State, c: nat, p: nat) {
    c < |s.cur| && s.cur[c] == Proc(p)
  }

  /** No process executes on two CPUs and no switch has resumed an unsaved context; while
      Process_lock is free a process is marked running exactly when a CPU executes it, and one that
      may be dispatched has a saved context. */
  lemma SchedulerExcludes(v0: int, s: State, p: nat)
    requires Reachable(v0, s) && Shape(s) && p < |s.pcP|
    ensures !s.fault
    ensures forall c: nat, d: nat :: Executes(s, c, p) && Executes(s, d, p) ==> c == d
    ensures s.pl == None ==> (s.status[p] == Running <==> exists c: nat :: Executes(s, c, p))
    ensures s.pl == None && s.status[p] == Runnable ==> s.savedP[p] && Resumable(s.pcP[p])
  {
    ReachableInv(v0, s);
    assert ProcOk(s, p);
    forall c: nat | Executes(s, c, p)
      ensures s.home[p] == c && On(s, p)
    {
      assert CpuOk(s, c);
    }
    if s.pl == None && On(s, p) {
      assert CpuOk(s, s.home[p]) && Executes(s, s.home[p], p);
      FreeMeansRunning(s.pcP[p], |s.al|, |s.pcP|);
    }
  }

  /** What a step that switches contexts does. */
  ghost predicate CleanSwitch(s: State, t: State, c: nat)
    requires Shape(s) && Shape(t) && c < |s.cur| == |t.cur|
  {
    && s.pl == t.pl == Some(c)
    && t.cur == s.cur[c := t.cur[c]]
    && match s.cur[c]
       case Sched(d) => d == c && t.cur[c].Proc? && t.cur[c].p < |s.pcP| && s.savedP[t.cur[c].p] && t.savedS[c] && s.home[t.cur[c].p] == c
       case Proc(p) => p < |t.savedP| && t.cur[c] == Sched(c) && s.savedS[c] && t.savedP[p] && s.home[p] == c
  }

  /** Process_lock is held across every context switch, what is resumed was saved, and a process
      that yields returns to the scheduler of the CPU that dispatched it last. */
  lemma SwitchesHoldLock(v0: int, s: State, c: nat, ch: Choice)
    requires Reachable(v0, s) && Shape(s) && c < |s.cur|
    ensures var t := Step(v0, s, c, ch);
      |t.cur| == |s.cur| && (t.cur != s.cur ==> CleanSwitch(s, t, c))
  {
    hide Step;
    ReachableInv(v0, s);
    var t := Step(v0, s, c, ch);
    assert CpuOk(s, c) && DispatchOk(s, c);
    StepCur(v0, s, c, ch);
    if t.cur != s.cur {
      SwitchStep(v0, s, c, ch);
      match s.cur[c]
      case Sched(d) => assert SwitchTo(Move(s, c, At(SchedBack(s.pcS[c].a.i))), c, s.pcS[c].a.i).cur[c] == Proc(s.pcS[c].a.i);
      case Proc(p) => assert s.home[p] == c;
    }
  }

  predicate SwitchPoint(pc: Pc) {
    pc.At? && (pc.a.SchedSwitch? || pc.a.SleepSwitch? || pc.a.WaitSwitch? || pc.a.PreSwitch?)
  }

  function AfterSwitch(a: Act): Pc {
    match a
    case SleepSwitch(l) => At(SleepBack(l))
    case PreSwitch(u) => At(PreBack(u))
    case _ => At(WaitLoop)
  }

  /** Only the four switch points change what a CPU executes. */
  lemma StepCur(v0: int, s: State, c: nat, ch: Choice)
    requires Inv(s) && c < |s.cur|
    ensures Step(v0, s, c, ch).cur != s.cur ==> SwitchPoint(CurPc(s, c)) && (s.cur[c].Sched? <==> CurPc(s, c).a.SchedSwitch?)
    ensures Step(v0, s, c, ch).cur != s.cur ==> !(ch == Interrupt && s.cur[c].Proc?)
  {
    assert CpuOk(s, c);
    if s.cur[c].Proc? {
      assert ProcOk(s, s.cur[c].p);
    }
  }

  lemma SwitchStep(v0: int, s: State, c: nat, ch: Choice)
    requires Inv(s) && c < |s.cur| && SwitchPoint(CurPc(s, c)) && (s.cur[c].Sched? <==> CurPc(s, c).a.SchedSwitch?)
    requires !(ch == Interrupt && s.cur[c].Proc?)
    ensures s.cur[c].Sched? ==> s.cur[c] == Sched(c) && s.pcS[c].a.i < |s.pcP|
    ensures Step(v0, s, c, ch) ==
      match s.cur[c]
      case Sched(d) => SwitchTo(Move(s, c, At(SchedBack(s.pcS[c].a.i))), c, s.pcS[c].a.i)
      case Proc(p) => SwitchBack(Move(s, c, AfterSwitch(CurPc(s, c).a)), c, p)
  {
    hide SwitchTo, SwitchBack, Move, Holds, WfProc, InInterrupt;
    assert CpuOk(s, c);
  }

  // ---------------------------------------------------------------- sleep locks

  /** At most one process is between the end of acquiring a sleep lock and its release, and the lock
      is marked locked while one is; at most one holds its access lock. */
  lemma SleepLockExcludes(v0: int, s: State, p: nat, q: nat, l: nat)
    requires Reachable(v0, s) && Shape(s) && p < |s.pcP| && q < |s.pcP| && l < |s.al|
    ensures l in s.owns[p] ==> s.locked[l].Some?
    ensures l in s.owns[p] && l in s.owns[q] ==> p == q
    ensures Holds(s.pcP[p], AL(l)) && Holds(s.pcP[q], AL(l)) ==> p == q
  {
    ReachableInv(v0, s);
    assert OwnerOk(s, p, l) && OwnerOk(s, q, l) && AccessOk(s, p, l) && AccessOk(s, q, l);
  }

  // ---------------------------------------------------------------- veto accounting

  /** The spin locks held at an action, and at a point not counting what it interrupted. */
  function LocksAt(a: Act): (r: set<LockRef>)
    ensures forall x: LockRef :: x in r <==> HeldAt(a, x)
  {
    match a
    case SchedCheck(_) => {PL}
    case SchedSetup(_) => {PL}
    case SchedSwitch(_) => {PL}
    case SchedBack(_) => {PL}
    case First => {PL}
    case SleepMark(_) => {PL}
    case SleepState(_) => {PL}
    case SleepSwitch(_) => {PL}
    case SleepBack(_) => {PL}
    case BookScan => {PL}
    case ForkPublish(_) => {PL}
    case ForkUndo(_) => {PL}
    case WaitLoop => {PL}
    case WaitState => {PL}
    case WaitSwitch => {PL}
    case AcqTest(l) => {AL(l)}
    case AcqTake(l) => {AL(l)}
    case RelUnlock(l) => {AL(l)}
    case RelAlarm(l) => {PL, AL(l)}
    case RelOut(l) => {AL(l)}
    case PreCheck(_) => {PL}
    case PreState(_) => {PL}
    case PreSwitch(_) => {PL}
    case PreBack(_) => {PL}
    case _ => {}
  }

  function LocksHere(pc: Pc): (r: set<LockRef>)
    ensures forall x: LockRef :: x in r <==> HeldHere(pc, x)
  {
    match pc
    case At(a) => LocksAt(a)
    case Incr(q, k) => LocksAt(k) - {q}
    case Spin(q, k) => LocksAt(k) - {q}
    case Clear(q, k) => LocksAt(k) + {q}
    case Decr(_, k) => LocksAt(k)
  }

  /** Inside an acquisition that waits, or inside a release after the flag went down: the veto count
      is raised on account of a lock that is not held. */
  function Between(pc: Pc): nat {
    if pc.Spin? || pc.Decr? then 1 else 0
  }

  /** What a point of a program adds to its stack's veto count. */
  function VetoHere(pc: Pc): nat {
    |LocksHere(pc)| + Between(pc)
  }

  /** The same for a whole stack: the point of execution and the points it interrupted. */
  function Veto(pc: Pc): nat {
    VetoHere(pc) + if InInterrupt(pc) then Veto(Below(pc)) else 0
  }

  function CountAt(a: Act): nat {
    if a.RelAlarm? then 2
    else if a.AcqTest? || a.AcqTake? || a.RelUnlock? || a.RelOut? || HeldAt(a, PL) then 1
    else 0
  }

  lemma VetoAt(a: Act)
    ensures VetoHere(At(a)) == CountAt(a)
  {
    if a.RelAlarm? {
      assert |{PL, AL(a.l)}| == 2;
    }
  }

  /** Along an acquisition the count rises at the first step, along a release it falls at the last. */
  lemma VetoEnter(r: LockRef, k: Act)
    requires HeldAt(k, r)
    ensures VetoHere(Incr(r, k)) == VetoHere(At(k)) - 1 && VetoHere(Spin(r, k)) == VetoHere(At(k))
  {
    assert r in LocksAt(k);
  }

  lemma VetoLeave(r: LockRef, k: Act)
    requires !HeldAt(k, r)
    ensures VetoHere(Clear(r, k)) == VetoHere(At(k)) + 1 && VetoHere(Decr(r, k)) == VetoHere(At(k)) + 1
  {
    assert r !in LocksAt(k);
  }

  /** Every stack's count is what its program accounts for; a process's is off by one from the count
      it started with, since it starts out holding one lock. */
  ghost predicate Accounted(v0: int, s: State)
    requires Shape(s)
  {
    && (forall c: nat :: c < |s.cur| ==> s.vetoS[c] == Veto(s.pcS[c]))
    && (forall p: nat :: p < |s.pcP| ==> s.vetoP[p] == Veto(s.pcP[p]) + v0 - 1)
  }

  lemma InitAccounted(v0: int, s: State)
    requires Init(v0, s)
    ensures Accounted(v0, s)
  {
    VetoAt(First);
    VetoAt(SchedTop(0));
  }

  /** The program edges out of an action. */
  predicate Next(a: Act, qc: Pc) {
    match a
    case SchedTop(i) => qc == Incr(PL, SchedCheck(i))
    case SchedCheck(i) => qc == At(SchedSetup(i)) || (qc.Clear? && qc.r == PL && qc.k.SchedTop?)
    case SchedSetup(i) => qc == At(SchedSwitch(i))
    case SchedSwitch(i) => qc == At(SchedBack(i))
    case SchedBack(i) => qc.Clear? && qc.r == PL && qc.k.SchedTop?
    case First => qc == Clear(PL, Work)
    case Work =>
      qc.Incr? && (match qc.r case PL => qc.k.BookScan? || qc.k.WaitLoop? case AL(l) => qc.k == AcqTest(l) || qc.k == RelUnlock(l))
    case AcqTest(l) => qc == Clear(AL(l), SleepStart(l)) || qc == At(AcqTake(l))
    case AcqTake(l) => qc == Clear(AL(l), AcqEnd(l))
    case AcqEnd(l) => qc == At(Work)
    case AcqAgain(l) => qc == Incr(AL(l), AcqTest(l))
    case SleepStart(l) => qc == Incr(PL, SleepMark(l))
    case SleepMark(l) => qc == At(SleepState(l))
    case SleepState(l) => qc == At(SleepSwitch(l))
    case SleepSwitch(l) => qc == At(SleepBack(l))
    case SleepBack(l) => qc == Clear(PL, AcqAgain(l))
    case RelUnlock(l) => qc == Incr(PL, RelAlarm(l))
    case RelAlarm(l) => qc == Clear(PL, RelOut(l))
    case RelOut(l) => qc == Clear(AL(l), Work)
    case BookScan => qc == Clear(PL, BookAgain) || (qc.Clear? && qc.r == PL && qc.k.ForkInit?)
    case BookAgain => qc == Incr(PL, BookScan)
    case ForkInit(q) => qc == Incr(PL, ForkUndo(q)) || qc == Incr(PL, ForkPublish(q))
    case ForkPublish(q) => qc == Clear(PL, Work)
    case ForkUndo(q) => qc == Clear(PL, Work)
    case WaitLoop => qc == Clear(PL, Work) || qc == At(WaitState)
    case WaitState => qc == At(WaitSwitch)
    case WaitSwitch => qc == At(WaitLoop)
    case PreTest(u) => qc == Incr(PL, PreCheck(u)) || qc == u
    case PreCheck(u) => qc == Clear(PL, PreExit(u)) || qc == At(PreState(u))
    case PreState(u) => qc == At(PreSwitch(u))
    case PreSwitch(u) => qc == At(PreBack(u))
    case PreBack(u) => qc == Clear(PL, PreExit(u))
    case PreExit(u) => qc == u
  }

  /** Back to the point that a preemption interrupted. */
  predicate Returns(a: Act, qc: Pc) {
    (a.PreTest? || a.PreExit?) && qc == a.u
  }

  /** Between lock operations the accounting does not change. */
  lemma NextVeto(a: Act, qc: Pc)
    requires Next(a, qc)
    ensures Veto(qc) == Veto(At(a))
  {
    hide VetoHere, LocksAt;
    if Returns(a, qc) {
      VetoAt(a);
    } else {
      EdgeVeto(a, qc);
      assert InInterrupt(qc) == InInterrupt(At(a));
      assert InInterrupt(qc) ==> Below(qc) == Below(At(a));
    }
  }

  lemma EdgeLocks(a: Act, qc: Pc)
    requires Next(a, qc) && !Returns(a, qc)
    ensures qc.At? || qc.Incr? || qc.Clear?
    ensures qc.At? ==> CountAt(qc.a) == CountAt(a)
    ensures qc.Incr? ==> HeldAt(qc.k, qc.r) && CountAt(qc.k) - 1 == CountAt(a)
    ensures qc.Clear? ==> !HeldAt(qc.k, qc.r) && CountAt(qc.k) + 1 == CountAt(a)
  {
  }

  lemma EdgeVeto(a: Act, qc: Pc)
    requires Next(a, qc) && !Returns(a, qc)
    ensures VetoHere(qc) == VetoHere(At(a))
  {
    hide Next, Returns, CountAt, HeldAt, VetoHere;
    EdgeLocks(a, qc);
    VetoAt(a);
    match qc
    case At(k) => VetoAt(k);
    case Incr(r, k) =>
      VetoAt(k);
      VetoEnter(r, k);
    case Clear(r, k) =>
      VetoAt(k);
      VetoLeave(r, k);
  }

  /** Every step takes its own thread to qc, changes that thread's veto count by n and no other, and
      at most prepares a fresh process. */
  ghost predicate Moved(v0: int, s: State, t: State, c: nat, qc: Pc, n: int)
    requires Shape(s) && Shape(t) && c < |s.cur|
  {
    && SameSize(s, t)
    && match s.cur[c]
       case Sched(d) =>
         && t.pcP == s.pcP && t.vetoP == s.vetoP && |t.pcS| == |s.pcS|
         && forall e: nat :: e < |s.pcS| ==>
              if e == d then t.pcS[e] == qc && t.vetoS[e] == s.vetoS[e] + n else t.pcS[e] == s.pcS[e] && t.vetoS[e] == s.vetoS[e]
       case Proc(p) =>
         && t.pcS == s.pcS && t.vetoS == s.vetoS && |t.pcP| == |s.pcP|
         && forall q: nat :: q < |s.pcP| ==>
              if q == p then t.pcP[q] == qc && t.vetoP[q] == s.vetoP[q] + n
              else (t.pcP[q] == s.pcP[q] && t.vetoP[q] == s.vetoP[q]) || (t.pcP[q] == At(First) && t.vetoP[q] == v0)
  }

  lemma MovedAccounted(v0: int, s: State, t: State, c: nat, qc: Pc, n: int)
    requires Shape(s) && Shape(t) && c < |s.cur| && Moved(v0, s, t, c, qc, n)
    requires Accounted(v0, s) && Veto(qc) == Veto(CurPc(s, c)) + n
    ensures Accounted(v0, t)
  {
    hide Veto;
    VetoOfFirst();
  }

  lemma VetoOfFirst()
    ensures Veto(At(First)) == 1
  {
    VetoAt(First);
  }

  /** Where the thread on CPU c is after a step. */
  function NewPc(s: State, t: State, c: nat): Pc
    requires Shape(s) && Shape(t) && SameSize(s, t) && c < |s.cur|
  {
    match s.cur[c] case Sched(d) => t.pcS[d] case Proc(p) => t.pcP[p]
  }

  function NextLock(s: State, pc: Pc): Pc
    requires !pc.At?
  {
    match pc
    case Incr(r, k) => Spin(r, k)
    case Spin(r, k) => if Flag(s, r) then pc else At(k)
    case Clear(r, k) => Decr(r, k)
    case Decr(r, k) => At(k)
  }

  function Raise(pc: Pc): int {
    if pc.Incr? then 1 else if pc.Decr? then -1 else 0
  }

  ghost predicate SameStacks(s: State, t: State) {
    Shape(s) && Shape(t) && SameSize(s, t) && t.cur == s.cur && t.pcS == s.pcS && t.pcP == s.pcP && t.vetoS == s.vetoS && t.vetoP == s.vetoP
  }

  lemma MoveMoved(v0: int, s: State, t: State, c: nat, qc: Pc, n: int)
    requires SameStacks(s, t) && c < |s.cur|
    ensures Moved(v0, s, Move(AddVeto(t, c, n), c, qc), c, qc, n)
    ensures n == 0 ==> AddVeto(t, c, n) == t
  {
    assert n == 0 ==> AddVeto(t, c, n).vetoS == t.vetoS && AddVeto(t, c, n).vetoP == t.vetoP;
  }

  lemma LockMoved(v0: int, s: State, c: nat, ch: Choice)
    requires Shape(s) && c < |s.cur| && !CurPc(s, c).At?
    requires !(ch == Interrupt && s.cur[c].Proc?)
    ensures Moved(v0, s, Step(v0, s, c, ch), c, NextLock(s, CurPc(s, c)), Raise(CurPc(s, c)))
  {
    hide SchedStep, ProcStep, InInterrupt, Moved, Move, AddVeto;
    match CurPc(s, c)
    case Incr(r, k) => MoveMoved(v0, s, s, c, Spin(r, k), 1);
    case Spin(r, k) =>
      if Flag(s, r) {
        StayMoved(v0, s, c);
      } else {
        MoveMoved(v0, s, SetFlag(s, c, r), c, At(k), 0);
      }
    case Clear(r, k) => MoveMoved(v0, s, ClearFlag(s, r), c, Decr(r, k), 0);
    case Decr(r, k) => MoveMoved(v0, s, s, c, At(k), -1);
  }

  lemma StayMoved(v0: int, s: State, c: nat)
    requires Shape(s) && c < |s.cur|
    ensures Moved(v0, s, s, c, CurPc(s, c), 0)
  {
  }

  lemma SchedMoved(v0: int, s: State, c: nat, ch: Choice)
    requires Inv(s) && c < |s.cur| && CurPc(s, c).At? && s.cur[c].Sched?
    ensures var t := Step(v0, s, c, ch);
      && Moved(v0, s, t, c, NewPc(s, t, c), 0)
      && (NewPc(s, t, c) == CurPc(s, c) || Next(CurPc(s, c).a, NewPc(s, t, c)))
  {
    assert CpuOk(s, c);
  }

  lemma ProcMoved(v0: int, s: State, c: nat, ch: Choice)
    requires Inv(s) && c < |s.cur| && CurPc(s, c).At? && s.cur[c].Proc?
    requires ch != Interrupt
    ensures var t := Step(v0, s, c, ch);
      && Moved(v0, s, t, c, NewPc(s, t, c), 0)
      && (NewPc(s, t, c) == CurPc(s, c) || Next(CurPc(s, c).a, NewPc(s, t, c)))
  {
    hide Inv, Step, Next, Below, ProcStep, WfProc, RunStatus, On, InInterrupt;
    CpuInRange(s, c);
    ActionStep(v0, s, c, ch);
    var p, a := s.cur[c].p, CurPc(s, c).a;
    ProcNext(v0, s, c, p, a, ch);
    if a.ForkInit? {
      BookedElsewhere(s, p);
    }
    ProcStacks(v0, s, c, p, a, ch);
  }

  /** A step at an action changes the place of its own thread and no veto count, but for a process it sets up. */
  lemma ProcStacks(v0: int, s: State, c: nat, p: nat, a: Act, ch: Choice)
    requires Shape(s) && c < |s.cur| && s.cur[c] == Proc(p) && (a.ForkInit? ==> a.q != p)
    ensures var t := ProcStep(v0, s, c, p, a, ch);
      && t.pcS == s.pcS && t.vetoS == s.vetoS
      && forall q: nat :: q < |s.pcP| && q != p ==>
           (t.pcP[q] == s.pcP[q] && t.vetoP[q] == s.vetoP[q]) || (t.pcP[q] == At(First) && t.vetoP[q] == v0)
    ensures ProcStep(v0, s, c, p, a, ch).vetoP[p] == s.vetoP[p]
  {
    hide ProcStep;
    if Sleeps(a) {
      SleepStacks(v0, s, c, p, a, ch);
    } else {
      OtherStacks(v0, s, c, p, a, ch);
    }
  }

  predicate Sleeps(a: Act) {
    a.AcqTest? || a.AcqTake? || a.AcqEnd? || a.AcqAgain? || a.SleepStart? || a.SleepMark? || a.SleepState? || a.SleepSwitch?
    || a.SleepBack? || a.RelUnlock? || a.RelAlarm? || a.RelOut?
  }

  lemma SleepStacks(v0: int, s: State, c: nat, p: nat, a: Act, ch: Choice)
    requires Shape(s) && c < |s.cur| && s.cur[c] == Proc(p) && Sleeps(a)
    ensures var t := ProcStep(v0, s, c, p, a, ch);
      && t.pcS == s.pcS && t.vetoS == s.vetoS && t.vetoP == s.vetoP
      && forall q: nat :: q < |s.pcP| && q != p ==> t.pcP[q] == s.pcP[q]
  {
    hide Woken;
  }

  lemma OtherStacks(v0: int, s: State, c: nat, p: nat, a: Act, ch: Choice)
    requires Shape(s) && c < |s.cur| && s.cur[c] == Proc(p) && !Sleeps(a) && (a.ForkInit? ==> a.q != p)
    ensures var t := ProcStep(v0, s, c, p, a, ch);
      && t.pcS == s.pcS && t.vetoS == s.vetoS
      && forall q: nat :: q < |s.pcP| && q != p ==>
           (t.pcP[q] == s.pcP[q] && t.vetoP[q] == s.vetoP[q]) || (t.pcP[q] == At(First) && t.vetoP[q] == v0)
    ensures ProcStep(v0, s, c, p, a, ch).vetoP[p] == s.vetoP[p]
  {
    if InInterrupt(At(a)) {
      PreemptStacks(s, c, p, a, ch);
      hide PreemptStep;
      assert ProcStep(v0, s, c, p, a, ch) == PreemptStep(s, c, p, a, ch);
    } else {
      hide FirstIdle, PreemptStep;
    }
  }

  lemma PreemptStacks(s: State, c: nat, p: nat, a: Act, ch: Choice)
    requires Shape(s) && c < |s.cur| && s.cur[c] == Proc(p)
    ensures var t := PreemptStep(s, c, p, a, ch);
      && t.pcS == s.pcS && t.vetoS == s.vetoS && t.vetoP == s.vetoP
      && forall q: nat :: q < |s.pcP| && q != p ==> t.pcP[q] == s.pcP[q]
  {
  }

  lemma ProcNext(v0: int, s: State, c: nat, p: nat, a: Act, ch: Choice)
    requires Shape(s) && c < |s.cur| && s.cur[c] == Proc(p)
    ensures ProcStep(v0, s, c, p, a, ch).pcP[p] == s.pcP[p] || Next(a, ProcStep(v0, s, c, p, a, ch).pcP[p])
  {
    hide ProcStep, Next;
    if Sleeps(a) {
      SleepNext(v0, s, c, p, a, ch);
    } else {
      OtherNext(v0, s, c, p, a, ch);
    }
  }

  lemma SleepNext(v0: int, s: State, c: nat, p: nat, a: Act, ch: Choice)
    requires Shape(s) && c < |s.cur| && s.cur[c] == Proc(p) && Sleeps(a)
    ensures ProcStep(v0, s, c, p, a, ch).pcP[p] == s.pcP[p] || Next(a, ProcStep(v0, s, c, p, a, ch).pcP[p])
  {
    hide Woken;
  }

  lemma OtherNext(v0: int, s: State, c: nat, p: nat, a: Act, ch: Choice)
    requires Shape(s) && c < |s.cur| && s.cur[c] == Proc(p) && !Sleeps(a)
    ensures ProcStep(v0, s, c, p, a, ch).pcP[p] == s.pcP[p] || Next(a, ProcStep(v0, s, c, p, a, ch).pcP[p])
  {
    hide FirstIdle;
  }

  lemma BookedElsewhere(s: State, p: nat)
    requires Inv(s) && p < |s.pcP| && s.pcP[p].At? && s.pcP[p].a.ForkInit?
    ensures s.pcP[p].a.q != p
  {
    assert BookOk(s, p) && ProcOk(s, p);
  }

  /** A fault stays, and a step that changes what a CPU executes faults if that context is not saved. */
  ghost predicate FaultsRight(s: State, t: State, c: nat)
    requires Shape(s) && Shape(t) && c < |s.cur| == |t.cur| && SameSize(s, t)
  {
    t.cur != s.cur ==>
      match t.cur[c]
      case Sched(d) => t.fault <==> s.fault || !s.savedS[d]
      case Proc(p) => t.fault <==> s.fault || !s.savedP[p]
  }

  lemma UnsavedFaults(v0: int, s: State, c: nat, ch: Choice)
    requires Shape(s) && c < |s.cur|
    ensures FaultsRight(s, Step(v0, s, c, ch), c)
    ensures s.fault ==> Step(v0, s, c, ch).fault
  {
    hide SchedStep, ProcStep, FaultsRight;
    if s.cur[c].Sched? {
      forall a: Act
        ensures FaultsRight(s, SchedStep(s, c, a), c) && (s.fault ==> SchedStep(s, c, a).fault)
      {
        SchedFaults(s, c, a);
      }
    } else {
      forall a: Act
        ensures var t := ProcStep(v0, s, c, s.cur[c].p, a, ch); FaultsRight(s, t, c) && (s.fault ==> t.fault)
      {
        ProcFaults(v0, s, c, s.cur[c].p, a, ch);
      }
    }
    StillFaults(s, c);
  }

  lemma StillFaults(s: State, c: nat)
    requires Shape(s) && c < |s.cur|
    ensures forall t: State :: Shape(t) && SameSize(s, t) && t.cur == s.cur && t.fault == s.fault ==> FaultsRight(s, t, c)
  {
  }

  lemma SchedFaults(s: State, c: nat, a: Act)
    requires Shape(s) && c < |s.cur| && s.cur[c].Sched?
    ensures FaultsRight(s, SchedStep(s, c, a), c) && (s.fault ==> SchedStep(s, c, a).fault)
  {
  }

  lemma ProcFaults(v0: int, s: State, c: nat, p: nat, a: Act, ch: Choice)
    requires Shape(s) && c < |s.cur| && s.cur[c] == Proc(p)
    ensures var t := ProcStep(v0, s, c, p, a, ch); FaultsRight(s, t, c) && (s.fault ==> t.fault)
  {
    hide FaultsRight, ProcStep;
    if a.SleepSwitch? || a.WaitSwitch? || a.PreSwitch? {
      YieldFaults(v0, s, c, p, a, ch);
    } else {
      OtherFaults(v0, s, c, p, a, ch);
      StillFaults(s, c);
    }
  }

  lemma YieldFaults(v0: int, s: State, c: nat, p: nat, a: Act, ch: Choice)
    requires Shape(s) && c < |s.cur| && s.cur[c] == Proc(p) && (a.SleepSwitch? || a.WaitSwitch? || a.PreSwitch?)
    ensures var t := ProcStep(v0, s, c, p, a, ch); FaultsRight(s, t, c) && (s.fault ==> t.fault)
  {
    hide Woken, FirstIdle;
  }

  lemma OtherFaults(v0: int, s: State, c: nat, p: nat, a: Act, ch: Choice)
    requires Shape(s) && c < |s.cur| && s.cur[c] == Proc(p) && !(a.SleepSwitch? || a.WaitSwitch? || a.PreSwitch?)
    ensures var t := ProcStep(v0, s, c, p, a, ch); t.cur == s.cur && t.fault == s.fault
  {
    hide Woken, FirstIdle;
  }

  /** Entered locks are held next, left locks are not. */
  lemma LockPoint(pc: Pc, nl: nat, np: nat)
    requires !pc.At? && (WfProc(pc, nl, np) || WfSched(pc, np))
    ensures HeldAt(pc.k, pc.r) <==> pc.Incr? || pc.Spin?
  {
  }

  lemma LockVeto(s: State, pc: Pc)
    requires !pc.At? && (HeldAt(pc.k, pc.r) <==> pc.Incr? || pc.Spin?)
    ensures Veto(NextLock(s, pc)) == Veto(pc) + Raise(pc)
  {
    hide VetoHere, HeldAt, Flag;
    match pc
    case Incr(r, k) => VetoEnter(r, k);
    case Spin(r, k) => VetoEnter(r, k);
    case Clear(r, k) => VetoLeave(r, k);
    case Decr(r, k) => VetoLeave(r, k);
  }

  /** Once a preemption is past its test, the locks held and awaited at all the points below it make
      up for the starting count. */
  predicate CalmAt(v0: int, pc: Pc) {
    InInterrupt(pc) ==>
      && CalmAt(v0, Below(pc))
      && (!(pc.At? && pc.a.PreTest?) ==> Veto(Below(pc)) == 1 - v0)
  }

  ghost predicate Calm(v0: int, s: State) {
    forall p: nat :: p < |s.pcP| ==> CalmAt(v0, s.pcP[p])
  }

  ghost predicate Sound(v0: int, s: State) {
    Inv(s) && Accounted(v0, s) && Calm(v0, s)
  }

  lemma MovedSound(v0: int, s: State, t: State, c: nat, qc: Pc, n: int)
    requires Sound(v0, s) && Inv(t) && c < |s.cur| && Moved(v0, s, t, c, qc, n) && Veto(qc) == Veto(CurPc(s, c)) + n
    requires s.cur[c].Proc? ==> CalmAt(v0, qc)
    ensures Sound(v0, t)
  {
    hide Inv, Veto, CalmAt;
    InvIsShaped(s);
    InvIsShaped(t);
    MovedAccounted(v0, s, t, c, qc, n);
    assert CalmAt(v0, At(First)) by {
      FirstIsCalm(v0);
    }
  }

  lemma InvIsShaped(s: State)
    requires Inv(s)
    ensures Shape(s)
  {
  }

  lemma FirstIsCalm(v0: int)
    ensures CalmAt(v0, At(First))
  {
  }

  lemma LockCalm(v0: int, s: State, pc: Pc)
    requires !pc.At? && CalmAt(v0, pc)
    ensures CalmAt(v0, NextLock(s, pc))
  {
    hide VetoHere, Flag;
  }

  lemma NextCalm(v0: int, a: Act, qc: Pc)
    requires Next(a, qc) && CalmAt(v0, At(a))
    requires a.PreTest? && qc != a.u ==> Veto(At(a)) + v0 - 1 == 0
    ensures CalmAt(v0, qc)
  {
    hide LocksAt, LocksHere;
  }

  lemma TestsCount(v0: int, s: State, c: nat, p: nat, a: Act, ch: Choice)
    requires Shape(s) && c < |s.cur| && s.cur[c] == Proc(p) && a.PreTest?
    ensures ProcStep(v0, s, c, p, a, ch).pcP[p] != a.u ==> s.vetoP[p] == 0
  {
  }

  lemma StepSound(v0: int, s: State, c: nat, ch: Choice)
    requires Sound(v0, s) && c < |s.cur|
    ensures Sound(v0, Step(v0, s, c, ch))
  {
    hide Step, Moved, Veto, CalmAt, NextLock, Next, InInterrupt;
    var pc := CurPc(s, c);
    CpuInRange(s, c);
    StepKeeps(v0, s, c, ch);
    if ch == Interrupt && s.cur[c].Proc? {
      InterruptStep(v0, s, c);
      MoveMoved(v0, s, s, c, At(PreTest(pc)), 0);
      assert Calm(v0, s);
      InterruptVeto(v0, pc);
      MovedSound(v0, s, Step(v0, s, c, ch), c, At(PreTest(pc)), 0);
    } else if !pc.At? {
      assert CpuOk(s, c);
      LockPoint(pc, |s.al|, |s.pcP|);
      LockVeto(s, pc);
      LockMoved(v0, s, c, ch);
      if s.cur[c].Proc? {
        LockCalm(v0, s, pc);
      }
      MovedSound(v0, s, Step(v0, s, c, ch), c, NextLock(s, pc), Raise(pc));
    } else {
      ActionSound(v0, s, c, ch);
    }
  }

  lemma InterruptVeto(v0: int, pc: Pc)
    requires CalmAt(v0, pc)
    ensures Veto(At(PreTest(pc))) == Veto(pc) && CalmAt(v0, At(PreTest(pc)))
  {
    VetoAt(PreTest(pc));
  }

  lemma SchedPlain(pc: Pc, np: nat)
    requires WfSched(pc, np)
    ensures !InInterrupt(pc)
  {
  }

  lemma ActionSound(v0: int, s: State, c: nat, ch: Choice)
    requires Sound(v0, s) && c < |s.cur| && CurPc(s, c).At? && !(ch == Interrupt && s.cur[c].Proc?)
    ensures Sound(v0, Step(v0, s, c, ch))
  {
    hide Step, Moved, Veto, CalmAt, Next, InInterrupt, WfSched, WfProc, RunStatus, Holds;
    var pc := CurPc(s, c);
    CpuInRange(s, c);
    assert CpuOk(s, c);
    StepKeeps(v0, s, c, ch);
    var t := Step(v0, s, c, ch);
    var qc := NewPc(s, t, c);
    if s.cur[c].Sched? {
      SchedPlain(pc, |s.pcP|);
      SchedMoved(v0, s, c, ch);
    } else {
      ProcMoved(v0, s, c, ch);
    }
    if qc != pc {
      NextVeto(pc.a, qc);
      if s.cur[c].Proc? {
        ActionStep(v0, s, c, ch);
        if pc.a.PreTest? {
          TestsCount(v0, s, c, s.cur[c].p, pc.a, ch);
        }
        NextCalm(v0, pc.a, qc);
      }
    }
    MovedSound(v0, s, t, c, qc, 0);
  }

  lemma {:induction false} RunSound(v0: int, s: State, steps: seq<(nat, Choice)>)
    requires Sound(v0, s) && InBounds(s, steps)
    ensures Sound(v0, Run(v0, s, steps))
    decreases |steps|
  {
    hide Step, Calm, Accounted, Inv;
    InvIsShaped(s);
    if steps != [] {
      StepSound(v0, s, steps[0].0, steps[0].1);
      RunSound(v0, Step(v0, s, steps[0].0, steps[0].1), steps[1..]);
    }
  }

  lemma ReachableSound(v0: int, s: State)
    requires Reachable(v0, s)
    ensures Sound(v0, s)
  {
    hide Step, Veto, CalmAt;
    var s0: State, steps: seq<(nat, Choice)> :| Init(v0, s0) && InBounds(s0, steps) && s == Run(v0, s0, steps);
    InitInv(v0, s0);
    InitAccounted(v0, s0);
    FirstIsCalm(v0);
    RunSound(v0, s0, steps);
  }

  /** The spin locks a thread holds, and the acquisitions and releases it is in the middle of. */
  function Locks(pc: Pc): set<LockRef> {
    LocksHere(pc) + if InInterrupt(pc) then Locks(Below(pc)) else {}
  }

  function Waits(pc: Pc): nat {
    Between(pc) + if InInterrupt(pc) then Waits(Below(pc)) else 0
  }

  lemma LocksAreHeld(pc: Pc, nl: nat, np: nat)
    requires WfProc(pc, nl, np) || WfSched(pc, np)
    ensures forall r: LockRef :: r in Locks(pc) <==> Holds(pc, r)
    ensures Veto(pc) == |Locks(pc)| + Waits(pc)
  {
    hide Locks, Holds, Veto, Waits, WfProc, WfSched;
    forall r: LockRef
      ensures r in Locks(pc) <==> Holds(pc, r)
    {
      InLocks(pc, r);
    }
    CountLocks(pc, nl, np);
  }

  lemma {:induction false} InLocks(pc: Pc, r: LockRef)
    ensures r in Locks(pc) <==> Holds(pc, r)
  {
    hide LocksHere, HeldHere;
    InLocksHere(pc, r);
    if InInterrupt(pc) {
      InLocks(Below(pc), r);
    }
  }

  lemma InLocksHere(pc: Pc, r: LockRef)
    ensures r in LocksHere(pc) <==> HeldHere(pc, r)
  {
  }

  lemma {:induction false} CountLocks(pc: Pc, nl: nat, np: nat)
    requires WfProc(pc, nl, np) || WfSched(pc, np)
    ensures Veto(pc) == |Locks(pc)| + Waits(pc)
  {
    hide LocksHere, LocksAt, HeldHere, Holds, WfProc, WfSched;
    if InInterrupt(pc) {
      InterruptHolds(pc, nl, np);
      CountLocks(Below(pc), nl, np);
      forall r: LockRef | r in LocksHere(pc)
        ensures r !in Locks(Below(pc))
      {
        InLocksHere(pc, r);
        InLocks(Below(pc), r);
      }
      assert LocksHere(pc) !! Locks(Below(pc));
    }
  }

  /** An interrupt takes at most Process_lock, and not when what it interrupted holds it. */
  lemma InterruptHolds(pc: Pc, nl: nat, np: nat)
    requires (WfProc(pc, nl, np) || WfSched(pc, np)) && InInterrupt(pc)
    ensures WfProc(Below(pc), nl, np)
    ensures forall r: LockRef :: HeldHere(pc, r) ==> r == PL && !Holds(Below(pc), r)
  {
  }

  /** Who holds a lock accounts for it. */
  lemma {:induction false} HolderVetoes(pc: Pc, r: LockRef)
    requires Veto(pc) == 0
    ensures !Holds(pc, r)
  {
    hide LocksAt, HeldAt;
    assert r in LocksHere(pc) <==> HeldHere(pc, r);
    if InInterrupt(pc) {
      HolderVetoes(Below(pc), r);
    }
  }

  /** Every stack's veto count is the spin locks its thread holds or waits for; a process's is off by
      one from the count it started with. */
  lemma VetoIsLocksHeld(v0: int, s: State, p: nat, c: nat)
    requires Reachable(v0, s) && Shape(s) && p < |s.pcP| && c < |s.cur|
    ensures forall r: LockRef :: r in Locks(s.pcP[p]) <==> Holds(s.pcP[p], r)
    ensures s.vetoP[p] == |Locks(s.pcP[p])| + Waits(s.pcP[p]) + v0 - 1
    ensures forall r: LockRef :: r in Locks(s.pcS[c]) <==> Holds(s.pcS[c], r)
    ensures s.vetoS[c] == |Locks(s.pcS[c])| + Waits(s.pcS[c])
  {
    hide Veto, Locks, Waits, Holds, WfProc, WfSched;
    ReachableSound(v0, s);
    assert ProcOk(s, p) && CpuOk(s, c);
    LocksAreHeld(s.pcP[p], |s.al|, |s.pcP|);
    LocksAreHeld(s.pcS[c], |s.al|, |s.pcP|);
  }

  /** A preemption that is about to leave the CPU interrupted a point that held no lock and waited for none. */
  ghost predicate YieldsClean(s: State) {
    forall p: nat :: p < |s.pcP| && s.pcP[p].At? && s.pcP[p].a.PreSwitch? ==> Locks(s.pcP[p].a.u) == {} && Waits(s.pcP[p].a.u) == 0
  }

  /** Who holds a sleep lock's access lock executes. */
  ghost predicate HoldersExecute(s: State) {
    Shape(s) && forall p: nat, l: nat :: p < |s.pcP| && l < |s.al| && s.al[l] == Some(p) ==> On(s, p)
  }

  /** The thread on CPU c spins on a lock that the thread on CPU d holds. */
  ghost predicate WaitsOn(s: State, c: nat, d: nat) {
    Shape(s) && c < |s.cur| && d < |s.cur| && CurPc(s, c).Spin? && Holds(CurPc(s, d), CurPc(s, c).r)
  }

  ghost predicate WaitingCycle(s: State, walk: seq<nat>) {
    |walk| >= 2 && walk[0] == walk[|walk| - 1] && forall i :: 0 <= i < |walk| - 1 ==> WaitsOn(s, walk[i], walk[i + 1])
  }

  lemma CleanYield(v0: int, s: State)
    requires v0 >= 1 && Reachable(v0, s) && Shape(s)
    ensures YieldsClean(s)
  {
    hide Reachable;
    forall p: nat | p < |s.pcP| && s.pcP[p].At? && s.pcP[p].a.PreSwitch?
      ensures Locks(s.pcP[p].a.u) == {} && Waits(s.pcP[p].a.u) == 0
    {
      PreemptsAt(v0, s, p);
    }
  }

  lemma HoldersStay(v0: int, s: State)
    requires v0 >= 1 && Reachable(v0, s)
    ensures HoldersExecute(s)
  {
    hide CalmAt, Veto;
    ReachableSound(v0, s);
    forall p: nat, l: nat | p < |s.pcP| && l < |s.al| && s.al[l] == Some(p)
      ensures On(s, p)
    {
      assert ProcOk(s, p) && AccessOk(s, p, l) && CalmAt(v0, s.pcP[p]);
      if !On(s, p) {
        OffCpu(s, p);
        ResumableHoldsNone(v0, s.pcP[p], l);
      }
    }
  }

  /** A process that executes nowhere waits at a point where it may be resumed. */
  lemma OffCpu(s: State, p: nat)
    requires Inv(s) && p < |s.pcP| && !On(s, p)
    ensures Resumable(s.pcP[p])
  {
    assert ProcOk(s, p);
    if s.status[p] == Running {
      assert DispatchOk(s, s.pl.value);
    }
  }

  lemma ResumableHoldsNone(v0: int, pc: Pc, l: nat)
    requires v0 >= 1 && Resumable(pc) && CalmAt(v0, pc)
    ensures !Holds(pc, AL(l))
  {
    hide LocksAt, Veto;
    if InInterrupt(pc) {
      HolderVetoes(Below(pc), AL(l));
    }
  }

  /** Spinning on an access lock ranks above spinning on Process_lock, which ranks above not spinning. */
  function Rank(pc: Pc): nat {
    if !pc.Spin? then 0 else if pc.r == PL then 1 else 2
  }

  lemma WaitLowers(v0: int, s: State, c: nat, d: nat)
    requires v0 >= 1 && Reachable(v0, s) && WaitsOn(s, c, d)
    ensures Rank(CurPc(s, d)) < Rank(CurPc(s, c))
  {
    hide Veto, CalmAt, Holds;
    ReachableSound(v0, s);
    CpuInRange(s, c);
    CpuInRange(s, d);
    assert CpuOk(s, c) && CpuOk(s, d);
    if s.cur[d].Proc? {
      assert CalmAt(v0, CurPc(s, d)) by {
        assert Calm(v0, s);
      }
      HolderRank(v0, CurPc(s, d), CurPc(s, c).r, |s.al|, |s.pcP|);
    } else {
      SchedRank(CurPc(s, d), CurPc(s, c).r, |s.pcP|);
    }
  }

  lemma HolderRank(v0: int, pc: Pc, r: LockRef, nl: nat, np: nat)
    requires v0 >= 1 && WfProc(pc, nl, np) && CalmAt(v0, pc) && Holds(pc, r)
    ensures Rank(pc) < if r == PL then 1 else 2
  {
    hide LocksAt, Veto;
    if InInterrupt(pc) && !(pc.At? && pc.a.PreTest?) {
      HolderVetoes(Below(pc), r);
    }
  }

  lemma SchedRank(pc: Pc, r: LockRef, np: nat)
    requires WfSched(pc, np) && Holds(pc, r)
    ensures Rank(pc) < if r == PL then 1 else 2
  {
  }

  lemma {:induction false} WalkLowers(v0: int, s: State, walk: seq<nat>)
    requires v0 >= 1 && Reachable(v0, s) && |walk| >= 2
    requires forall i :: 0 <= i < |walk| - 1 ==> WaitsOn(s, walk[i], walk[i + 1])
    ensures Shape(s) && walk[0] < |s.cur| && walk[|walk| - 1] < |s.cur|
    ensures Rank(CurPc(s, walk[|walk| - 1])) < Rank(CurPc(s, walk[0]))
  {
    hide Reachable, Rank;
    assert WaitsOn(s, walk[0], walk[0 + 1]);
    WaitLowers(v0, s, walk[0], walk[1]);
    if |walk| > 2 {
      var rest := walk[1..];
      forall i | 0 <= i < |rest| - 1
        ensures WaitsOn(s, rest[i], rest[i + 1])
      {
        assert WaitsOn(s, walk[i + 1], walk[(i + 1) + 1]);
      }
      WalkLowers(v0, s, rest);
    }
  }

  lemma NoWaitingCycle(v0: int, s: State, walk: seq<nat>)
    requires v0 >= 1 && Reachable(v0, s)
    ensures !WaitingCycle(s, walk)
  {
    hide Reachable, Rank;
    if WaitingCycle(s, walk) {
      WalkLowers(v0, s, walk);
    }
  }

  /** A preemption leaves the CPU only where the locks held and awaited number one less the count a
      stack starts with: at no lock from one, at exactly one lock from zero, and never from more. */
  lemma PreemptsAt(v0: int, s: State, p: nat)
    requires Reachable(v0, s) && Shape(s) && p < |s.pcP| && s.pcP[p].At? && s.pcP[p].a.PreSwitch?
    ensures |Locks(s.pcP[p].a.u)| + Waits(s.pcP[p].a.u) == 1 - v0
  {
    hide Veto, Locks, Waits;
    ReachableSound(v0, s);
    assert CalmAt(v0, s.pcP[p]) && Below(s.pcP[p]) == s.pcP[p].a.u;
    assert ProcOk(s, p);
    LocksAreHeld(s.pcP[p].a.u, |s.al|, |s.pcP|);
  }
}

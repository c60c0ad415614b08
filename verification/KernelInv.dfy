/** The invariant of the kernel machine, and that every step keeps it.  What the invariant says of a
    thread depends only on where it is: the locks held there (Holds), the slot booked (Books), the sleep
    lock on its way in or out (Pending) and the status announced (RunStatus).  A step either moves
    between points that are alike in all of these (Similar), or changes one of them together with the
    shared state that it describes; there is a lemma for each such change, and one for each function of
    the source that puts its steps together. */
module KernelInv {
  import opened Options
  import opened Kernel

  // ---------------------------------------------------------------- reading a program counter

  function ActOf(pc: Pc): Act {
    if pc.At? then pc.a else pc.k
  }

  /** The program point that a preemption in progress interrupted, or the point itself. */
  function Below(pc: Pc): (u: Pc)
    ensures InInterrupt(pc) ==> u < pc
  {
    match ActOf(pc)
    case PreTest(u) => u
    case PreCheck(u) => u
    case PreState(u) => u
    case PreSwitch(u) => u
    case PreBack(u) => u
    case PreExit(u) => u
    case _ => pc
  }

  /** The point at the bottom of the stack, below every preemption in progress. */
  function Bottom(pc: Pc): Pc {
    if InInterrupt(pc) then Bottom(Below(pc)) else pc
  }

  function Base(pc: Pc): Act {
    ActOf(Bottom(pc))
  }

  /** The spin lock r is held at action a. */
  predicate HeldAt(a: Act, r: LockRef) {
    match a
    case SchedCheck(_) => r == PL
    case SchedSetup(_) => r == PL
    case SchedSwitch(_) => r == PL
    case SchedBack(_) => r == PL
    case First => r == PL
    case SleepMark(_) => r == PL
    case SleepState(_) => r == PL
    case SleepSwitch(_) => r == PL
    case SleepBack(_) => r == PL
    case BookScan => r == PL
    case ForkPublish(_) => r == PL
    case ForkUndo(_) => r == PL
    case WaitLoop => r == PL
    case WaitState => r == PL
    case WaitSwitch => r == PL
    case AcqTest(l) => r == AL(l)
    case AcqTake(l) => r == AL(l)
    case RelUnlock(l) => r == AL(l)
    case RelAlarm(l) => r == PL || r == AL(l)
    case RelOut(l) => r == AL(l)
    case PreCheck(_) => r == PL
    case PreState(_) => r == PL
    case PreSwitch(_) => r == PL
    case PreBack(_) => r == PL
    case _ => false
  }

  /** The spin lock r is held at this point of a program, not counting what it interrupted. */
  predicate HeldHere(pc: Pc, r: LockRef) {
    match pc
    case At(a) => HeldAt(a, r)
    case Incr(q, k) => q != r && HeldAt(k, r)
    case Spin(q, k) => q != r && HeldAt(k, r)
    case Clear(q, k) => q == r || HeldAt(k, r)
    case Decr(q, k) => HeldAt(k, r)
  }

  predicate Holds(pc: Pc, r: LockRef) {
    HeldHere(pc, r) || (InInterrupt(pc) && Holds(Below(pc), r))
  }

  /** The slot a process has booked and not yet published or given back. */
  function Books(pc: Pc): Option<nat> {
    match Base(pc)
    case ForkInit(q) => Some(q)
    case ForkPublish(q) => Some(q)
    case ForkUndo(q) => Some(q)
    case _ => None
  }

  /** The sleep lock whose flag a process has set on its way out of acquire, or has yet to clear on
      its way into release. */
  function Pending(pc: Pc): Option<nat> {
    match Base(pc)
    case AcqEnd(l) => Some(l)
    case RelUnlock(l) => Some(l)
    case _ => None
  }

  /** The status a process has while it executes: it announces its new status just before it leaves. */
  function RunStatus(pc: Pc): Status {
    if pc.At? && pc.a.PreSwitch? then Runnable
    else if pc.At? && (pc.a.SleepSwitch? || pc.a.WaitSwitch?) then Asleep
    else if InInterrupt(pc) then RunStatus(Below(pc))
    else Running
  }

  /** The process a scheduler has marked running and is about to switch to. */
  function Dispatch(pc: Pc): Option<nat> {
    match pc
    case At(SchedSetup(i)) => Some(i)
    case At(SchedSwitch(i)) => Some(i)
    case _ => None
  }

  /** Where a switched-out process resumes; every such point expects to hold Process_lock. */
  predicate Resumable(pc: Pc) {
    pc.At? && (pc.a.First? || pc.a.SleepBack? || pc.a.WaitLoop? || pc.a.PreBack?)
  }

  predicate Parked(pc: Pc) {
    pc.At? && pc.a.SchedBack?
  }

  // ---------------------------------------------------------------- well-formed program counters

  predicate Enters(r: LockRef, k: Act) {
    match r
    case PL => k.SleepMark? || k.RelAlarm? || k.BookScan? || k.ForkPublish? || k.ForkUndo? || k.WaitLoop? || k.PreCheck?
    case AL(l) => k == AcqTest(l) || k == RelUnlock(l)
  }

  predicate Leaves(r: LockRef, k: Act) {
    match r
    case PL => k.Work? || k.AcqAgain? || k.RelOut? || k.BookAgain? || k.ForkInit? || k.PreExit?
    case AL(l) => k == AcqEnd(l) || k == SleepStart(l) || k == Work
  }

  /** Parameters in range. */
  predicate InRange(a: Act, nl: nat, np: nat) {
    match a
    case AcqTest(l) => l < nl
    case AcqTake(l) => l < nl
    case AcqEnd(l) => l < nl
    case AcqAgain(l) => l < nl
    case SleepStart(l) => l < nl
    case SleepMark(l) => l < nl
    case SleepState(l) => l < nl
    case SleepSwitch(l) => l < nl
    case SleepBack(l) => l < nl
    case RelUnlock(l) => l < nl
    case RelAlarm(l) => l < nl
    case RelOut(l) => l < nl
    case ForkInit(q) => q < np
    case ForkPublish(q) => q < np
    case ForkUndo(q) => q < np
    case SchedTop(_) => false
    case SchedCheck(_) => false
    case SchedSetup(_) => false
    case SchedSwitch(_) => false
    case SchedBack(_) => false
    case _ => true
  }

  predicate WfHere(pc: Pc, nl: nat, np: nat) {
    && InRange(ActOf(pc), nl, np)
    && (!pc.At? && pc.r.AL? ==> pc.r.l < nl)
    && (pc.Incr? || pc.Spin? ==> Enters(pc.r, pc.k))
    && (pc.Clear? || pc.Decr? ==> Leaves(pc.r, pc.k))
  }

  /** A preemption may interrupt any point, another preemption included; it takes Process_lock only
      when nothing it interrupted holds it. */
  predicate WfProc(pc: Pc, nl: nat, np: nat) {
    && WfHere(pc, nl, np)
    && (InInterrupt(pc) ==>
          && WfProc(Below(pc), nl, np)
          && ((HeldHere(pc, PL) || ActOf(pc).PreExit?) ==> !Holds(Below(pc), PL)))
  }

  predicate WfSched(pc: Pc, np: nat) {
    match pc
    case At(SchedTop(i)) => i < np
    case At(SchedCheck(i)) => i < np
    case At(SchedSetup(i)) => i < np
    case At(SchedSwitch(i)) => i < np
    case At(SchedBack(i)) => i < np
    case At(_) => false
    case Incr(r, k) => r == PL && k.SchedCheck? && k.i < np
    case Spin(r, k) => r == PL && k.SchedCheck? && k.i < np
    case Clear(r, k) => r == PL && k.SchedTop? && k.i < np
    case Decr(r, k) => r == PL && k.SchedTop? && k.i < np
  }

  // ---------------------------------------------------------------- the invariant

  /** Process p executes on some CPU: necessarily the one recorded as its home. */
  predicate On(s: State, p: nat)
    requires Shape(s) && p < |s.pcP|
  {
    s.home[p] < |s.cur| && s.cur[s.home[p]] == Proc(p)
  }

  predicate Dispatching(s: State, c: nat, p: nat)
    requires Shape(s)
  {
    c < |s.cur| && s.cur[c] == Sched(c) && Dispatch(s.pcS[c]) == Some(p)
  }

  ghost predicate CpuOk(s: State, c: nat)
    requires Shape(s) && c < |s.cur|
  {
    && WfSched(s.pcS[c], |s.pcP|)
    && (match s.cur[c]
        case Sched(d) => d == c && !s.savedS[c]
        case Proc(p) => p < |s.pcP| && s.home[p] == c && !s.savedP[p] && s.savedS[c] && Parked(s.pcS[c]))
    && (Holds(CurPc(s, c), PL) <==> s.pl == Some(c))
  }

  /** What a scheduler about to switch relies on. */
  ghost predicate DispatchOk(s: State, c: nat)
    requires Shape(s) && c < |s.cur|
  {
    s.cur[c] == Sched(c) && Dispatch(s.pcS[c]).Some? ==>
      var i := Dispatch(s.pcS[c]).value;
      i < |s.pcP| && s.status[i] == Running && s.savedP[i] && !On(s, i) && (s.pcS[c] == At(SchedSwitch(i)) ==> s.home[i] == c)
  }

  ghost predicate ProcOk(s: State, p: nat)
    requires Shape(s) && p < |s.pcP|
  {
    && WfProc(s.pcP[p], |s.al|, |s.pcP|)
    && (s.savedP[p] ==> Resumable(s.pcP[p]) && !On(s, p))
    && (On(s, p) ==> s.status[p] == RunStatus(s.pcP[p]))
    && (!On(s, p) && (s.status[p] == Runnable || s.status[p] == Asleep) ==> s.savedP[p])
    && (s.status[p].Idle? || s.status[p].Booked? ==> s.pcP[p] == At(First) && !On(s, p))
    && (!On(s, p) && s.status[p] == Running ==> s.pl.Some? && Dispatching(s, s.pl.value, p))
  }

  ghost predicate BookOk(s: State, p: nat)
    requires Shape(s) && p < |s.pcP|
  {
    Books(s.pcP[p]).Some? ==>
      var q := Books(s.pcP[p]).value;
      q < |s.pcP| && s.status[q] == Booked(p) && (Base(s.pcP[p]).ForkPublish? ==> s.savedP[q] && s.pcP[q] == At(First))
  }

  /** The access flag of a sleep lock is up while exactly one process holds the access lock. */
  ghost predicate AccessOk(s: State, p: nat, l: nat)
    requires Shape(s) && p < |s.pcP| && l < |s.al|
  {
    Holds(s.pcP[p], AL(l)) <==> s.al[l] == Some(p)
  }

  /** The locked flag is up while exactly one process owns the sleep lock or is on its way. */
  ghost predicate OwnerOk(s: State, p: nat, l: nat)
    requires Shape(s) && p < |s.pcP| && l < |s.al|
  {
    && (l in s.owns[p] || Pending(s.pcP[p]) == Some(l) <==> s.locked[l] == Some(p))
    && !(l in s.owns[p] && Pending(s.pcP[p]) == Some(l))
    && (Base(s.pcP[p]) == AcqTake(l) ==> s.locked[l] == None)
  }

  ghost predicate Inv(s: State) {
    && Shape(s) && !s.fault
    && (forall c: nat :: c < |s.cur| ==> CpuOk(s, c))
    && (forall c: nat :: c < |s.cur| ==> DispatchOk(s, c))
    && (forall p: nat :: p < |s.pcP| ==> ProcOk(s, p))
    && (forall p: nat :: p < |s.pcP| ==> BookOk(s, p))
    && (forall p: nat, l: nat :: p < |s.pcP| && l < |s.al| ==> AccessOk(s, p, l))
    && (forall p: nat, l: nat :: p < |s.pcP| && l < |s.al| ==> OwnerOk(s, p, l))
  }

  // ---------------------------------------------------------------- steps that only move

  /** The same state up to veto counts and wake-up marks, which the invariant does not mention. */
  ghost predicate Alike(s: State, t: State) {
    t == s.(vetoS := t.vetoS, vetoP := t.vetoP, wake := t.wake) && |t.vetoS| == |s.vetoS| && |t.vetoP| == |s.vetoP| && |t.wake| == |s.wake|
  }

  lemma AlikeKeeps(s: State, t: State)
    requires Inv(s) && Alike(s, t)
    ensures Inv(t)
  {
    forall c: nat | c < |s.cur|
      ensures CpuOk(t, c) && DispatchOk(t, c)
    {
      assert CpuOk(s, c) && DispatchOk(s, c) && CurPc(t, c) == CurPc(s, c);
    }
    forall p: nat | p < |s.pcP|
      ensures ProcOk(t, p) && BookOk(t, p)
    {
      assert ProcOk(s, p) && BookOk(s, p) && On(t, p) == On(s, p);
    }
    forall p: nat, l: nat | p < |s.pcP| && l < |s.al|
      ensures AccessOk(t, p, l) && OwnerOk(t, p, l)
    {
      assert AccessOk(s, p, l) && OwnerOk(s, p, l);
    }
  }

  /** Two points of a process's program that look alike from outside. */
  ghost predicate Similar(pc: Pc, qc: Pc) {
    && (forall r: LockRef :: Holds(qc, r) <==> Holds(pc, r))
    && Books(qc) == Books(pc)
    && Pending(qc) == Pending(pc) && RunStatus(qc) == RunStatus(pc)
    && (Base(qc).AcqTake? ==> Base(qc) == Base(pc))
  }

  /** The slot's context is set up for its first entry. */
  ghost predicate Prepared(s: State, q: nat)
    requires Shape(s)
  {
    q < |s.pcP| && s.savedP[q] && s.pcP[q] == At(First)
  }

  lemma ProcMoveKeeps(s: State, c: nat, pc: Pc)
    requires Inv(s) && c < |s.cur| && s.cur[c].Proc?
    requires Similar(CurPc(s, c), pc) && WfProc(pc, |s.al|, |s.pcP|)
    requires Base(pc).ForkPublish? ==> Base(CurPc(s, c)).ForkPublish? || Prepared(s, Base(pc).q)
    ensures Inv(Move(s, c, pc))
  {
    var t := Move(s, c, pc);
    var p := s.cur[c].p;
    assert CpuOk(s, c);
    forall d: nat | d < |s.cur|
      ensures CpuOk(t, d) && DispatchOk(t, d)
    {
      assert CpuOk(s, d) && DispatchOk(s, d);
      assert CurPc(t, d) == if d == c then pc else CurPc(s, d);
    }
    forall q: nat | q < |s.pcP|
      ensures ProcOk(t, q) && BookOk(t, q)
    {
      assert ProcOk(s, q) && BookOk(s, q) && On(t, q) == On(s, q);
    }
    forall q: nat, l: nat | q < |s.pcP| && l < |s.al|
      ensures AccessOk(t, q, l) && OwnerOk(t, q, l)
    {
      assert AccessOk(s, q, l) && OwnerOk(s, q, l);
    }
  }

  lemma SchedMoveKeeps(s: State, c: nat, pc: Pc)
    requires Inv(s) && c < |s.cur| && s.cur[c].Sched?
    requires (Holds(pc, PL) <==> Holds(CurPc(s, c), PL)) && WfSched(pc, |s.pcP|)
    requires Dispatch(pc) == None && Dispatch(CurPc(s, c)) == None
    ensures Inv(Move(s, c, pc))
  {
    var t := Move(s, c, pc);
    assert CpuOk(s, c);
    forall d: nat | d < |s.cur|
      ensures CpuOk(t, d) && DispatchOk(t, d)
    {
      assert CpuOk(s, d) && DispatchOk(s, d);
      assert CurPc(t, d) == if d == c then pc else CurPc(s, d);
    }
    forall q: nat | q < |s.pcP|
      ensures ProcOk(t, q) && BookOk(t, q)
    {
      assert ProcOk(s, q) && BookOk(s, q) && On(t, q) == On(s, q);
    }
    forall q: nat, l: nat | q < |s.pcP| && l < |s.al|
      ensures AccessOk(t, q, l) && OwnerOk(t, q, l)
    {
      assert AccessOk(s, q, l) && OwnerOk(s, q, l);
    }
  }

  // ---------------------------------------------------------------- steps that change flags

  /** Outside a dispatch every running process executes. */
  lemma NoDispatch(s: State, p: nat)
    requires Inv(s) && p < |s.pcP| && s.status[p] == Running
    requires s.pl.Some? ==> s.pl.value < |s.cur| && s.cur[s.pl.value].Proc?
    ensures On(s, p)
  {
    assert ProcOk(s, p);
  }

  /** A step of process p on CPU c that changes its place and the lock flags and nothing else. */
  ghost predicate FlagStep(s: State, t: State, c: nat, pc: Pc)
    requires Shape(s) && Shape(t) && c < |s.cur| && s.cur[c].Proc?
  {
    && t == s.(pcP := s.pcP[s.cur[c].p := pc], pl := t.pl, al := t.al, locked := t.locked, owns := t.owns)
    && |t.al| == |s.al|
    && WfProc(pc, |s.al|, |s.pcP|) && RunStatus(pc) == RunStatus(CurPc(s, c))
    && Books(pc) == Books(CurPc(s, c)) && (Base(pc).ForkPublish? ==> Base(CurPc(s, c)).ForkPublish?)
  }

  lemma FlagStepKeeps(s: State, t: State, c: nat, pc: Pc)
    requires Inv(s) && Shape(t) && c < |s.cur| && s.cur[c].Proc? && FlagStep(s, t, c, pc)
    requires t.pl != s.pl ==> s.pl == None || s.pl == Some(c)
    requires forall d: nat :: d < |s.cur| ==> (Holds(CurPc(t, d), PL) <==> t.pl == Some(d))
    requires forall q: nat, l: nat :: q < |s.pcP| && l < |s.al| ==> AccessOk(t, q, l) && OwnerOk(t, q, l)
    ensures Inv(t)
  {
    var p := s.cur[c].p;
    assert CpuOk(s, c);
    forall d: nat | d < |s.cur|
      ensures CpuOk(t, d) && DispatchOk(t, d)
    {
      assert CpuOk(s, d) && DispatchOk(s, d);
    }
    forall q: nat | q < |s.pcP|
      ensures ProcOk(t, q) && BookOk(t, q)
    {
      assert ProcOk(s, q) && BookOk(s, q) && On(t, q) == On(s, q);
      if t.pl != s.pl && s.status[q] == Running {
        NoDispatch(s, q);
      }
    }
  }

  /** Getting past the spin, or past the clearing of the flag, changes one holding and nothing else. */
  lemma SpinPoint(pc: Pc, nl: nat, np: nat)
    requires WfProc(pc, nl, np) && pc.Spin? && !Holds(pc, pc.r)
    ensures var qc := At(pc.k);
      && Holds(qc, pc.r) && (forall r: LockRef :: r != pc.r ==> (Holds(qc, r) <==> Holds(pc, r)))
      && WfProc(qc, nl, np) && Base(qc) == Base(pc) && RunStatus(qc) == RunStatus(pc)
      && (pc.r.AL? ==> pc.r.l < nl)
  {
  }

  lemma ClearPoint(pc: Pc, nl: nat, np: nat)
    requires WfProc(pc, nl, np) && pc.Clear?
    ensures var qc := Decr(pc.r, pc.k);
      && Holds(pc, pc.r) && !Holds(qc, pc.r) && (forall r: LockRef :: r != pc.r ==> (Holds(qc, r) <==> Holds(pc, r)))
      && WfProc(qc, nl, np) && Base(qc) == Base(pc) && RunStatus(qc) == RunStatus(pc)
      && (pc.r.AL? ==> pc.r.l < nl)
  {
  }

  /** Taking a spin lock whose flag is down. */
  lemma ProcTakeKeeps(s: State, c: nat)
    requires Inv(s) && c < |s.cur| && s.cur[c].Proc? && CurPc(s, c).Spin? && !Flag(s, CurPc(s, c).r)
    ensures Inv(Move(SetFlag(s, c, CurPc(s, c).r), c, At(CurPc(s, c).k)))
  {
    hide Holds, WfProc, RunStatus, Base;
    var p, pc := s.cur[c].p, CurPc(s, c);
    var t := Move(SetFlag(s, c, pc.r), c, At(pc.k));
    assert CpuOk(s, c) && ProcOk(s, p);
    assert pc.r.AL? && pc.r.l < |s.al| ==> AccessOk(s, p, pc.r.l);
    SpinNotHeld(s, p);
    SpinPoint(pc, |s.al|, |s.pcP|);
    forall d: nat | d < |s.cur|
      ensures Holds(CurPc(t, d), PL) <==> t.pl == Some(d)
    {
      assert CpuOk(s, d) && CurPc(t, d) == if d == c then At(pc.k) else CurPc(s, d);
    }
    forall q: nat, l: nat | q < |s.pcP| && l < |s.al|
      ensures AccessOk(t, q, l) && OwnerOk(t, q, l)
    {
      assert AccessOk(s, q, l) && OwnerOk(s, q, l);
    }
    FlagStepKeeps(s, t, c, At(pc.k));
  }

  /** A flag that is down is held by nobody. */
  lemma SpinNotHeld(s: State, p: nat)
    requires Inv(s) && p < |s.pcP| && On(s, p) && s.pcP[p].Spin? && !Flag(s, s.pcP[p].r)
    ensures !Holds(s.pcP[p], s.pcP[p].r)
  {
    assert CpuOk(s, s.home[p]) && ProcOk(s, p);
    if s.pcP[p].r.AL? {
      assert AccessOk(s, p, s.pcP[p].r.l);
    }
  }

  /** Clearing the flag of a spin lock. */
  lemma ProcClearKeeps(s: State, c: nat)
    requires Inv(s) && c < |s.cur| && s.cur[c].Proc? && CurPc(s, c).Clear?
    ensures Inv(Move(ClearFlag(s, CurPc(s, c).r), c, Decr(CurPc(s, c).r, CurPc(s, c).k)))
  {
    hide Holds, WfProc, RunStatus, Base;
    var p, pc := s.cur[c].p, CurPc(s, c);
    var qc := Decr(pc.r, pc.k);
    var t := Move(ClearFlag(s, pc.r), c, qc);
    assert CpuOk(s, c) && ProcOk(s, p);
    ClearPoint(pc, |s.al|, |s.pcP|);
    assert pc.r.AL? ==> AccessOk(s, p, pc.r.l);
    forall d: nat | d < |s.cur|
      ensures Holds(CurPc(t, d), PL) <==> t.pl == Some(d)
    {
      assert CpuOk(s, d) && CurPc(t, d) == if d == c then qc else CurPc(s, d);
    }
    forall q: nat, l: nat | q < |s.pcP| && l < |s.al|
      ensures AccessOk(t, q, l) && OwnerOk(t, q, l)
    {
      assert AccessOk(s, q, l) && OwnerOk(s, q, l);
    }
    FlagStepKeeps(s, t, c, qc);
  }

  /** Setting the locked flag of a sleep lock, with the access lock held. */
  lemma TakeSleepLockKeeps(s: State, c: nat, l: nat)
    requires Inv(s) && c < |s.cur| && s.cur[c].Proc? && CurPc(s, c) == At(AcqTake(l)) && l < |s.al|
    ensures s.locked[l] == None
    ensures Inv(Move(s.(locked := s.locked[l := Some(s.cur[c].p)]), c, Clear(AL(l), AcqEnd(l))))
  {
    hide Holds, WfProc, RunStatus, Base, Books, Pending;
    TakePoint(l, |s.al|, |s.pcP|);
    var p := s.cur[c].p;
    var pc := Clear(AL(l), AcqEnd(l));
    var t := Move(s.(locked := s.locked[l := Some(p)]), c, pc);
    assert CpuOk(s, c) && ProcOk(s, p) && OwnerOk(s, p, l) && AccessOk(s, p, l);
    forall d: nat | d < |s.cur|
      ensures Holds(CurPc(t, d), PL) <==> t.pl == Some(d)
    {
      assert CpuOk(s, d) && CurPc(t, d) == if d == c then pc else CurPc(s, d);
    }
    forall q: nat, m: nat | q < |s.pcP| && m < |s.al|
      ensures AccessOk(t, q, m) && OwnerOk(t, q, m)
    {
      assert AccessOk(s, q, m) && OwnerOk(s, q, m);
      if m == l && q != p && Base(s.pcP[q]) == AcqTake(l) {
        assert ProcOk(s, q);
        TakerHolds(s, q, l);
      }
    }
    FlagStepKeeps(s, t, c, pc);
  }

  /** Between seeing a sleep lock unlocked and locking it, a process holds its access lock. */
  lemma TakerHolds(s: State, q: nat, l: nat)
    requires Shape(s) && q < |s.pcP| && WfProc(s.pcP[q], |s.al|, |s.pcP|) && Base(s.pcP[q]) == AcqTake(l)
    ensures Holds(s.pcP[q], AL(l))
  {
    BottomHeld(s.pcP[q], |s.al|, |s.pcP|, l);
  }

  lemma {:induction false} BottomHeld(pc: Pc, nl: nat, np: nat, l: nat)
    requires WfProc(pc, nl, np) && Base(pc) == AcqTake(l)
    ensures Holds(pc, AL(l))
  {
    if InInterrupt(pc) {
      BottomHeld(Below(pc), nl, np, l);
    }
  }

  lemma TakePoint(l: nat, nl: nat, np: nat)
    requires l < nl
    ensures var pc, qc := At(AcqTake(l)), Clear(AL(l), AcqEnd(l));
      && (forall r: LockRef :: Holds(qc, r) <==> Holds(pc, r)) && WfProc(qc, nl, np) && RunStatus(qc) == RunStatus(pc)
      && Base(pc) == AcqTake(l) && Base(qc) == AcqEnd(l) && Books(qc) == Books(pc) && Pending(pc) == None && Pending(qc) == Some(l)
      && Holds(pc, AL(l))
  {
  }

  lemma UnlockPoint(l: nat, nl: nat, np: nat)
    requires l < nl
    ensures var pc, qc := At(RelUnlock(l)), Incr(PL, RelAlarm(l));
      && (forall r: LockRef :: Holds(qc, r) <==> Holds(pc, r)) && WfProc(qc, nl, np) && RunStatus(qc) == RunStatus(pc)
      && Base(pc) == RelUnlock(l) && Base(qc) == RelAlarm(l) && Books(qc) == Books(pc) && Pending(pc) == Some(l) && Pending(qc) == None
  {
  }

  /** The end of SleepLock_Acquire, and the start of SleepLock_Release. */
  lemma AcquiredKeeps(s: State, c: nat, l: nat)
    requires Inv(s) && c < |s.cur| && s.cur[c].Proc? && CurPc(s, c) == At(AcqEnd(l)) && l < |s.al|
    ensures Inv(Move(s.(owns := s.owns[s.cur[c].p := s.owns[s.cur[c].p] + {l}]), c, At(Work)))
  {
    var p := s.cur[c].p;
    var t := Move(s.(owns := s.owns[p := s.owns[p] + {l}]), c, At(Work));
    assert CpuOk(s, c) && ProcOk(s, p);
    forall d: nat | d < |s.cur|
      ensures Holds(CurPc(t, d), PL) <==> t.pl == Some(d)
    {
      assert CpuOk(s, d) && CurPc(t, d) == if d == c then At(Work) else CurPc(s, d);
    }
    forall q: nat, m: nat | q < |s.pcP| && m < |s.al|
      ensures AccessOk(t, q, m) && OwnerOk(t, q, m)
    {
      assert AccessOk(s, q, m) && OwnerOk(s, q, m);
    }
    FlagStepKeeps(s, t, c, At(Work));
  }

  lemma StartReleaseKeeps(s: State, c: nat, l: nat)
    requires Inv(s) && c < |s.cur| && s.cur[c].Proc? && CurPc(s, c) == At(Work) && l < |s.al| && l in s.owns[s.cur[c].p]
    ensures Inv(Move(s.(owns := s.owns[s.cur[c].p := s.owns[s.cur[c].p] - {l}]), c, Incr(AL(l), RelUnlock(l))))
  {
    var p := s.cur[c].p;
    var pc := Incr(AL(l), RelUnlock(l));
    var t := Move(s.(owns := s.owns[p := s.owns[p] - {l}]), c, pc);
    assert CpuOk(s, c) && ProcOk(s, p);
    forall d: nat | d < |s.cur|
      ensures Holds(CurPc(t, d), PL) <==> t.pl == Some(d)
    {
      assert CpuOk(s, d) && CurPc(t, d) == if d == c then pc else CurPc(s, d);
    }
    forall q: nat, m: nat | q < |s.pcP| && m < |s.al|
      ensures AccessOk(t, q, m) && OwnerOk(t, q, m)
    {
      assert AccessOk(s, q, m) && OwnerOk(s, q, m);
    }
    FlagStepKeeps(s, t, c, pc);
  }

  lemma UnlockKeeps(s: State, c: nat, l: nat)
    requires Inv(s) && c < |s.cur| && s.cur[c].Proc? && CurPc(s, c) == At(RelUnlock(l)) && l < |s.al|
    ensures Inv(Move(s.(locked := s.locked[l := None]), c, Incr(PL, RelAlarm(l))))
  {
    hide Holds, WfProc, RunStatus, Base, Books, Pending;
    UnlockPoint(l, |s.al|, |s.pcP|);
    var p := s.cur[c].p;
    var pc := Incr(PL, RelAlarm(l));
    var t := Move(s.(locked := s.locked[l := None]), c, pc);
    assert CpuOk(s, c) && ProcOk(s, p) && OwnerOk(s, p, l);
    forall d: nat | d < |s.cur|
      ensures Holds(CurPc(t, d), PL) <==> t.pl == Some(d)
    {
      assert CpuOk(s, d) && CurPc(t, d) == if d == c then pc else CurPc(s, d);
    }
    forall q: nat, m: nat | q < |s.pcP| && m < |s.al|
      ensures AccessOk(t, q, m) && OwnerOk(t, q, m)
    {
      assert AccessOk(s, q, m) && OwnerOk(s, q, m);
    }
    FlagStepKeeps(s, t, c, pc);
  }

  // ---------------------------------------------------------------- steps that change a status

  lemma ParkedHolds(pc: Pc)
    requires Parked(pc)
    ensures Holds(pc, PL) && Dispatch(pc) == None
  {
  }

  lemma RunStatusKinds(pc: Pc)
    ensures RunStatus(pc) == Running || RunStatus(pc) == Runnable || RunStatus(pc) == Asleep
  {
  }

  /** A process p on CPU c that holds Process_lock moves on and sets the status of slot q. */
  ghost predicate SetsStatus(s: State, c: nat, q: nat, st: Status, pc: Pc)
    requires Shape(s) && c < |s.cur| && s.cur[c].Proc? && q < |s.pcP|
  {
    var p, was := s.cur[c].p, CurPc(s, c);
    && Holds(was, PL) && (forall r: LockRef :: Holds(pc, r) <==> Holds(was, r)) && WfProc(pc, |s.al|, |s.pcP|)
    && Pending(pc) == Pending(was) && (Base(pc).AcqTake? ==> Base(pc) == Base(was))
    && if q == p then st == RunStatus(pc) && Books(pc) == Books(was) && (Base(pc).ForkPublish? ==> Base(was).ForkPublish?)
       else
         && RunStatus(pc) == RunStatus(was) && !On(s, q) && st != Running
         && (st == Runnable || st == Asleep ==> s.savedP[q])
         && (s.status[q] == Idle || s.status[q] == Booked(p))
         && (Books(pc) == None || (Books(pc) == Some(q) && st == Booked(p) && !Base(pc).ForkPublish?))
  }

  lemma StatusStepKeeps(s: State, c: nat, q: nat, st: Status, pc: Pc)
    requires Inv(s) && c < |s.cur| && s.cur[c].Proc? && q < |s.pcP| && SetsStatus(s, c, q, st, pc)
    ensures Inv(Move(SetStatus(s, q, st), c, pc))
  {
    hide Holds, WfProc, RunStatus, Base, Books, Pending, Resumable, WfSched;
    var t := Move(SetStatus(s, q, st), c, pc);
    assert CpuOk(s, c);
    forall d: nat | d < |s.cur|
      ensures CpuOk(t, d) && DispatchOk(t, d)
    {
      assert CpuOk(s, d) && DispatchOk(s, d);
      assert CurPc(t, d) == if d == c then pc else CurPc(s, d);
      DispatchHolds(s, d);
    }
    forall o: nat | o < |s.pcP|
      ensures ProcOk(t, o) && BookOk(t, o)
    {
      StatusStepProc(s, c, q, st, pc, o);
    }
    forall o: nat, l: nat | o < |s.pcP| && l < |s.al|
      ensures AccessOk(t, o, l) && OwnerOk(t, o, l)
    {
      assert AccessOk(s, o, l) && OwnerOk(s, o, l);
    }
  }

  lemma StatusStepProc(s: State, c: nat, q: nat, st: Status, pc: Pc, o: nat)
    requires Inv(s) && c < |s.cur| && s.cur[c].Proc? && q < |s.pcP| && o < |s.pcP| && SetsStatus(s, c, q, st, pc)
    ensures var t := Move(SetStatus(s, q, st), c, pc); ProcOk(t, o) && BookOk(t, o)
  {
    hide Holds, WfProc, RunStatus, Base, Books, Pending, Resumable, WfSched;
    var p := s.cur[c].p;
    var t := Move(SetStatus(s, q, st), c, pc);
    assert CpuOk(s, c) && ProcOk(s, p) && ProcOk(s, q) && BookOk(s, p);
    RunStatusKinds(CurPc(s, c));
    RunStatusKinds(pc);
    assert ProcOk(s, o) && BookOk(s, o) && On(t, o) == On(s, o);
    if s.status[o] == Running {
      NoDispatch(s, o);
    }
  }

  /** A scheduler about to switch holds Process_lock. */
  lemma DispatchHolds(s: State, d: nat)
    requires Inv(s) && d < |s.cur|
    ensures s.cur[d].Sched? && Dispatch(s.pcS[d]).Some? ==> s.pl == Some(d)
  {
    assert CpuOk(s, d);
  }

  /** Scheduler_RaiseAlarm makes sleepers runnable; none of them executes. */
  lemma AlarmKeeps(s: State, c: nat, l: nat)
    requires Inv(s) && c < |s.cur| && s.cur[c].Proc? && CurPc(s, c) == At(RelAlarm(l)) && l < |s.al|
    ensures var (st, wk) := Woken(s.status, s.wake, l);
      Inv(Move(s.(status := st, wake := wk), c, Clear(PL, RelOut(l))))
  {
    var (st, wk) := Woken(s.status, s.wake, l);
    assert CpuOk(s, c);
    AlarmStatusKeeps(s, c, st, wk);
    ProcMoveKeeps(s.(status := st, wake := wk), c, Clear(PL, RelOut(l)));
  }

  lemma AlarmStatusKeeps(s: State, c: nat, st: seq<Status>, wk: seq<Option<nat>>)
    requires Inv(s) && c < |s.cur| && s.pl == Some(c) && s.cur[c].Proc? && RunStatus(CurPc(s, c)) == Running
    requires |st| == |wk| == |s.status| && forall o :: 0 <= o < |st| ==> st[o] == s.status[o] || (s.status[o] == Asleep && st[o] == Runnable)
    ensures Inv(s.(status := st, wake := wk))
  {
    hide Holds, WfProc, Base, Books, Pending, Resumable, WfSched;
    var t := s.(status := st, wake := wk);
    forall d: nat | d < |s.cur|
      ensures CpuOk(t, d) && DispatchOk(t, d)
    {
      assert CpuOk(s, d) && DispatchOk(s, d) && CurPc(t, d) == CurPc(s, d);
    }
    forall o: nat | o < |s.pcP|
      ensures ProcOk(t, o) && BookOk(t, o)
    {
      assert ProcOk(s, o) && BookOk(s, o) && On(t, o) == On(s, o);
      SleeperOff(s, c, o);
    }
    forall o: nat, m: nat | o < |s.pcP| && m < |s.al|
      ensures AccessOk(t, o, m) && OwnerOk(t, o, m)
    {
      assert AccessOk(s, o, m) && OwnerOk(s, o, m);
    }
  }

  /** While a process holds Process_lock at another point, no executing process is asleep or runnable. */
  lemma SleeperOff(s: State, c: nat, o: nat)
    requires Inv(s) && c < |s.cur| && s.pl == Some(c) && o < |s.pcP|
    requires s.cur[c].Proc? ==> RunStatus(CurPc(s, c)) == Running
    ensures On(s, o) ==> s.status[o] == Running
  {
    assert ProcOk(s, o);
    if On(s, o) {
      assert CpuOk(s, s.home[o]);
      if s.home[o] != c {
        FreeMeansRunning(s.pcP[o], |s.al|, |s.pcP|);
      }
    }
  }

  /** A process changes its own status only under Process_lock. */
  lemma {:induction false} FreeMeansRunning(pc: Pc, nl: nat, np: nat)
    requires WfProc(pc, nl, np) && !Holds(pc, PL)
    ensures RunStatus(pc) == Running
  {
    if InInterrupt(pc) {
      FreeMeansRunning(Below(pc), nl, np);
    }
  }

  /** What is resumed runs. */
  lemma ResumedRuns(pc: Pc, nl: nat, np: nat)
    requires WfProc(pc, nl, np) && Resumable(pc)
    ensures RunStatus(pc) == Running
  {
    if InInterrupt(pc) {
      FreeMeansRunning(Below(pc), nl, np);
    }
  }

  /** Process_Fork sets up the booked slot's stack and context. */
  lemma ForkInitKeeps(s: State, c: nat, q: nat, v: seq<int>)
    requires Inv(s) && c < |s.cur| && s.cur[c].Proc? && CurPc(s, c) == At(ForkInit(q)) && q < |s.pcP| && |v| == |s.pcP|
    ensures Inv(Move(s.(pcP := s.pcP[q := At(First)], savedP := s.savedP[q := true], vetoP := v), c, Incr(PL, ForkPublish(q))))
  {
    var p := s.cur[c].p;
    assert CpuOk(s, c) && BookOk(s, p) && ProcOk(s, q);
    assert s.pcP[q := At(First)] == s.pcP;
    var mid := s.(savedP := s.savedP[q := true], vetoP := v);
    PrepareKeeps(s, q, v);
    ProcMoveKeeps(mid, c, Incr(PL, ForkPublish(q)));
  }

  lemma PrepareKeeps(s: State, q: nat, v: seq<int>)
    requires Inv(s) && q < |s.pcP| && |v| == |s.pcP| && s.status[q].Booked?
    ensures Inv(s.(savedP := s.savedP[q := true], vetoP := v))
  {
    hide Holds, WfProc, RunStatus, Base, Books, Pending, WfSched;
    var t := s.(savedP := s.savedP[q := true], vetoP := v);
    assert ProcOk(s, q);
    forall d: nat | d < |s.cur|
      ensures CpuOk(t, d) && DispatchOk(t, d)
    {
      assert CpuOk(s, d) && DispatchOk(s, d) && CurPc(t, d) == CurPc(s, d);
    }
    forall o: nat | o < |s.pcP|
      ensures ProcOk(t, o) && BookOk(t, o)
    {
      assert ProcOk(s, o) && BookOk(s, o) && On(t, o) == On(s, o);
    }
    forall o: nat, l: nat | o < |s.pcP| && l < |s.al|
      ensures AccessOk(t, o, l) && OwnerOk(t, o, l)
    {
      assert AccessOk(s, o, l) && OwnerOk(s, o, l);
    }
  }

  // ---------------------------------------------------------------- steps of a scheduler

  lemma SchedTakeKeeps(s: State, c: nat)
    requires Inv(s) && c < |s.cur| && s.cur[c].Sched? && CurPc(s, c).Spin? && s.pl == None
    ensures Inv(Move(s.(pl := Some(c)), c, At(CurPc(s, c).k)))
  {
    var pc := At(CurPc(s, c).k);
    var t := Move(s.(pl := Some(c)), c, pc);
    assert CpuOk(s, c);
    forall d: nat | d < |s.cur|
      ensures CpuOk(t, d) && DispatchOk(t, d)
    {
      assert CpuOk(s, d) && DispatchOk(s, d);
      assert CurPc(t, d) == if d == c then pc else CurPc(s, d);
    }
    forall o: nat | o < |s.pcP|
      ensures ProcOk(t, o) && BookOk(t, o)
    {
      assert ProcOk(s, o) && BookOk(s, o) && On(t, o) == On(s, o);
    }
    forall o: nat, l: nat | o < |s.pcP| && l < |s.al|
      ensures AccessOk(t, o, l) && OwnerOk(t, o, l)
    {
      assert AccessOk(s, o, l) && OwnerOk(s, o, l);
    }
  }

  lemma SchedClearKeeps(s: State, c: nat)
    requires Inv(s) && c < |s.cur| && s.cur[c].Sched? && CurPc(s, c).Clear?
    ensures Inv(Move(s.(pl := None), c, Decr(PL, CurPc(s, c).k)))
  {
    var pc := Decr(PL, CurPc(s, c).k);
    var t := Move(s.(pl := None), c, pc);
    assert CpuOk(s, c);
    forall d: nat | d < |s.cur|
      ensures CpuOk(t, d) && DispatchOk(t, d)
    {
      assert CpuOk(s, d) && DispatchOk(s, d);
      assert CurPc(t, d) == if d == c then pc else CurPc(s, d);
    }
    forall o: nat | o < |s.pcP|
      ensures ProcOk(t, o) && BookOk(t, o)
    {
      assert ProcOk(s, o) && BookOk(s, o) && On(t, o) == On(s, o);
    }
    forall o: nat, l: nat | o < |s.pcP| && l < |s.al|
      ensures AccessOk(t, o, l) && OwnerOk(t, o, l)
    {
      assert AccessOk(s, o, l) && OwnerOk(s, o, l);
    }
  }

  /** Marking a runnable process running. */
  lemma DispatchKeeps(s: State, c: nat, i: nat)
    requires Inv(s) && c < |s.cur| && s.cur[c].Sched? && CurPc(s, c) == At(SchedCheck(i)) && i < |s.pcP| && s.status[i] == Runnable
    ensures Inv(Move(SetStatus(s, i, Running), c, At(SchedSetup(i))))
  {
    var pc := At(SchedSetup(i));
    var t := Move(SetStatus(s, i, Running), c, pc);
    assert CpuOk(s, c) && ProcOk(s, i);
    SleeperOff(s, c, i);
    forall d: nat | d < |s.cur|
      ensures CpuOk(t, d) && DispatchOk(t, d)
    {
      assert CpuOk(s, d) && DispatchOk(s, d);
      assert CurPc(t, d) == if d == c then pc else CurPc(s, d);
    }
    forall o: nat | o < |s.pcP|
      ensures ProcOk(t, o) && BookOk(t, o)
    {
      assert ProcOk(s, o) && BookOk(s, o) && On(t, o) == On(s, o);
    }
    forall o: nat, l: nat | o < |s.pcP| && l < |s.al|
      ensures AccessOk(t, o, l) && OwnerOk(t, o, l)
    {
      assert AccessOk(s, o, l) && OwnerOk(s, o, l);
    }
  }

  /** Context_SetupProcess: the process is re-homed to the CPU that dispatches it. */
  lemma SetupKeeps(s: State, c: nat, i: nat)
    requires Inv(s) && c < |s.cur| && s.cur[c].Sched? && CurPc(s, c) == At(SchedSetup(i)) && i < |s.pcP|
    ensures Inv(Move(s.(home := s.home[i := c]), c, At(SchedSwitch(i))))
  {
    var pc := At(SchedSwitch(i));
    var t := Move(s.(home := s.home[i := c]), c, pc);
    assert CpuOk(s, c) && DispatchOk(s, c) && ProcOk(s, i);
    forall d: nat | d < |s.cur|
      ensures CpuOk(t, d) && DispatchOk(t, d)
    {
      assert CpuOk(s, d) && DispatchOk(s, d);
      assert CurPc(t, d) == if d == c then pc else CurPc(s, d);
    }
    forall o: nat | o < |s.pcP|
      ensures ProcOk(t, o) && BookOk(t, o)
    {
      assert ProcOk(s, o) && BookOk(s, o) && On(t, o) == On(s, o);
    }
    forall o: nat, l: nat | o < |s.pcP| && l < |s.al|
      ensures AccessOk(t, o, l) && OwnerOk(t, o, l)
    {
      assert AccessOk(s, o, l) && OwnerOk(s, o, l);
    }
  }

  // ---------------------------------------------------------------- context switches

  /** SCHEDULER_SWITCH: the context resumed is valid, and Process_lock stays held on this CPU. */
  lemma SwitchToKeeps(s: State, c: nat, i: nat)
    requires Inv(s) && c < |s.cur| && s.cur[c].Sched? && CurPc(s, c) == At(SchedSwitch(i)) && i < |s.pcP|
    ensures var t := SwitchTo(Move(s, c, At(SchedBack(i))), c, i);
      Inv(t) && t.pl == s.pl == Some(c) && s.savedP[i]
  {
    var t := SwitchTo(Move(s, c, At(SchedBack(i))), c, i);
    assert CpuOk(s, c) && DispatchOk(s, c) && ProcOk(s, i);
    ResumedRuns(s.pcP[i], |s.al|, |s.pcP|);
    forall d: nat | d < |s.cur|
      ensures CpuOk(t, d) && DispatchOk(t, d)
    {
      assert CpuOk(s, d) && DispatchOk(s, d);
      assert CurPc(t, d) == if d == c then s.pcP[i] else CurPc(s, d);
    }
    forall o: nat | o < |s.pcP|
      ensures ProcOk(t, o) && BookOk(t, o)
    {
      assert ProcOk(s, o) && BookOk(s, o);
      assert On(t, o) == (On(s, o) || o == i);
    }
    forall o: nat, l: nat | o < |s.pcP| && l < |s.al|
      ensures AccessOk(t, o, l) && OwnerOk(t, o, l)
    {
      assert AccessOk(s, o, l) && OwnerOk(s, o, l);
    }
  }

  /** Process_lock is held at a point that resumes as another. */
  ghost predicate GoesBack(s: State, c: nat, pc: Pc)
    requires Shape(s) && c < |s.cur| && s.cur[c].Proc?
  {
    var was := CurPc(s, c);
    && RunStatus(was) != Running && Holds(was, PL)
    && Resumable(pc) && WfProc(pc, |s.al|, |s.pcP|) && (forall r: LockRef :: Holds(pc, r) <==> Holds(was, r))
    && Books(pc) == Books(was) && (Base(pc).ForkPublish? ==> Base(was).ForkPublish?)
    && Pending(pc) == Pending(was) && (Base(pc).AcqTake? ==> Base(pc) == Base(was))
  }

  /** SCHEDULER_RETURN: a process that has announced its new status returns to the scheduler of the
      very CPU it executes on, and Process_lock stays held there. */
  lemma SwitchBackKeeps(s: State, c: nat, pc: Pc)
    requires Inv(s) && c < |s.cur| && s.cur[c].Proc? && GoesBack(s, c, pc)
    ensures var t := SwitchBack(Move(s, c, pc), c, s.cur[c].p);
      Inv(t) && t.cur[c] == Sched(c) && t.pl == s.pl == Some(c)
  {
    hide Holds, WfProc, RunStatus, Base, Books, Pending, Resumable, WfSched;
    var p := s.cur[c].p;
    var t := SwitchBack(Move(s, c, pc), c, p);
    assert CpuOk(s, c);
    forall d: nat | d < |s.cur|
      ensures CpuOk(t, d) && DispatchOk(t, d)
    {
      SwitchBackCpu(s, c, pc, d);
    }
    forall o: nat | o < |s.pcP|
      ensures ProcOk(t, o) && BookOk(t, o)
    {
      SwitchBackProc(s, c, pc, o);
    }
    forall o: nat, l: nat | o < |s.pcP| && l < |s.al|
      ensures AccessOk(t, o, l) && OwnerOk(t, o, l)
    {
      assert AccessOk(s, o, l) && OwnerOk(s, o, l);
    }
  }

  lemma SwitchBackCpu(s: State, c: nat, pc: Pc, d: nat)
    requires Inv(s) && c < |s.cur| && s.cur[c].Proc? && GoesBack(s, c, pc) && d < |s.cur|
    ensures s.cur[c].p < |s.pcP|
    ensures var t := SwitchBack(Move(s, c, pc), c, s.cur[c].p); CpuOk(t, d) && DispatchOk(t, d)
  {
    hide Holds, WfProc, RunStatus, Base, Books, Pending, Resumable, WfSched;
    var t := SwitchBack(Move(s, c, pc), c, s.cur[c].p);
    assert CpuOk(s, c) && ProcOk(s, s.cur[c].p) && DispatchOk(s, c);
    ParkedHolds(s.pcS[c]);
    assert CpuOk(s, d) && DispatchOk(s, d);
    assert CurPc(t, d) == if d == c then s.pcS[c] else CurPc(s, d);
    DispatchHolds(s, d);
  }

  lemma SwitchBackProc(s: State, c: nat, pc: Pc, o: nat)
    requires Inv(s) && c < |s.cur| && s.cur[c].Proc? && GoesBack(s, c, pc) && o < |s.pcP|
    ensures s.cur[c].p < |s.pcP|
    ensures var t := SwitchBack(Move(s, c, pc), c, s.cur[c].p); ProcOk(t, o) && BookOk(t, o)
  {
    hide Holds, WfProc, RunStatus, Base, Books, Pending, Resumable, WfSched;
    var p := s.cur[c].p;
    var t := SwitchBack(Move(s, c, pc), c, p);
    assert CpuOk(s, c) && ProcOk(s, p);
    RunStatusKinds(CurPc(s, c));
    assert ProcOk(s, o) && BookOk(s, o);
    assert On(t, o) == (On(s, o) && o != p);
    if s.status[o] == Running {
      NoDispatch(s, o);
    }
  }

  // ---------------------------------------------------------------- every step

  /** SpinLock_Acquire and SpinLock_Release: the veto count moves outside the invariant. */
  lemma LockStepKeeps(v0: int, s: State, c: nat, ch: Choice)
    requires Inv(s) && c < |s.cur| && !CurPc(s, c).At? && !(ch == Interrupt && s.cur[c].Proc?)
    ensures Inv(Step(v0, s, c, ch))
  {
    var pc := CurPc(s, c);
    assert CpuOk(s, c);
    match pc
    case Incr(r, k) => VetoMoveKeeps(s, c, 1, Spin(r, k));
    case Decr(r, k) => VetoMoveKeeps(s, c, -1, At(k));
    case Spin(r, k) =>
      if !Flag(s, r) {
        if s.cur[c].Proc? { ProcTakeKeeps(s, c); } else { SchedTakeKeeps(s, c); }
      }
    case Clear(r, k) =>
      if s.cur[c].Proc? { ProcClearKeeps(s, c); } else { SchedClearKeeps(s, c); }
  }

  lemma VetoMoveKeeps(s: State, c: nat, n: int, pc: Pc)
    requires Inv(s) && c < |s.cur|
    requires match CurPc(s, c) case Incr(r, k) => pc == Spin(r, k) case Decr(r, k) => pc == At(k) case _ => false
    ensures Inv(Move(AddVeto(s, c, n), c, pc))
  {
    var t := AddVeto(s, c, n);
    assert CpuOk(s, c);
    AlikeKeeps(s, t);
    if s.cur[c].Proc? {
      assert ProcOk(s, s.cur[c].p);
      LockPointSimilar(CurPc(s, c), pc, |s.al|, |s.pcP|);
      ProcMoveKeeps(t, c, pc);
    } else {
      SchedMoveKeeps(t, c, pc);
    }
  }

  lemma LockPointSimilar(pc: Pc, qc: Pc, nl: nat, np: nat)
    requires WfProc(pc, nl, np)
    requires match pc case Incr(r, k) => qc == Spin(r, k) case Decr(r, k) => qc == At(k) case _ => false
    ensures Similar(pc, qc) && WfProc(qc, nl, np) && Base(qc) == Base(pc)
  {
  }

  lemma InterruptKeeps(s: State, c: nat)
    requires Inv(s) && c < |s.cur| && s.cur[c].Proc?
    ensures Inv(Move(s, c, At(PreTest(CurPc(s, c)))))
  {
    var p := s.cur[c].p;
    assert CpuOk(s, c) && ProcOk(s, p);
    ProcMoveKeeps(s, c, At(PreTest(CurPc(s, c))));
  }

  lemma SchedStepKeeps(v0: int, s: State, c: nat, ch: Choice)
    requires Inv(s) && c < |s.cur| && s.cur[c].Sched? && CurPc(s, c).At?
    ensures Inv(Step(v0, s, c, ch))
  {
    assert CpuOk(s, c);
    match CurPc(s, c).a
    case SchedTop(i) => SchedMoveKeeps(s, c, Incr(PL, SchedCheck(i)));
    case SchedCheck(i) =>
      if s.status[i] == Runnable {
        DispatchKeeps(s, c, i);
      } else {
        SchedMoveKeeps(s, c, Clear(PL, SchedTop(NextSlot(s, i))));
      }
    case SchedSetup(i) => SetupKeeps(s, c, i);
    case SchedSwitch(i) => SwitchToKeeps(s, c, i);
    case SchedBack(i) => SchedMoveKeeps(s, c, Clear(PL, SchedTop(NextSlot(s, i))));
  }

  /** A process at an action takes that action's step. */
  lemma ActionStep(v0: int, s: State, c: nat, ch: Choice)
    requires Shape(s) && c < |s.cur| && s.cur[c].Proc? && CurPc(s, c).At? && ch != Interrupt
    ensures Step(v0, s, c, ch) == ProcStep(v0, s, c, s.cur[c].p, CurPc(s, c).a, ch)
  {
  }

  lemma CpuInRange(s: State, c: nat)
    requires Inv(s) && c < |s.cur|
    ensures Shape(s)
    ensures s.cur[c].Proc? ==>
      var p := s.cur[c].p;
      p < |s.pcP| && WfProc(s.pcP[p], |s.al|, |s.pcP|) && s.status[p] == RunStatus(s.pcP[p]) && On(s, p)
  {
    assert CpuOk(s, c);
    if s.cur[c].Proc? {
      assert ProcOk(s, s.cur[c].p);
    }
  }

  /** The slot a process has booked is not its own, and nobody executes it. */
  lemma BookedSlot(s: State, p: nat)
    requires Inv(s) && p < |s.pcP| && Books(s.pcP[p]).Some?
    ensures var q := Books(s.pcP[p]).value;
      q < |s.pcP| && s.status[q] == Booked(p) && !On(s, q) && (Base(s.pcP[p]).ForkPublish? ==> s.savedP[q])
  {
    assert BookOk(s, p) && ProcOk(s, Books(s.pcP[p]).value);
  }

  lemma IdleSlot(s: State, q: nat)
    requires Inv(s) && q < |s.pcP| && s.status[q] == Idle
    ensures !On(s, q)
  {
    assert ProcOk(s, q);
  }

  /** The sleep lock functions. */
  lemma SleepLockStepKeeps(v0: int, s: State, c: nat, ch: Choice)
    requires Inv(s) && c < |s.cur| && s.cur[c].Proc? && CurPc(s, c).At? && ch != Interrupt
    requires var a := CurPc(s, c).a;
      a.AcqTest? || a.AcqTake? || a.AcqEnd? || a.AcqAgain? || a.RelUnlock? || a.RelAlarm? || a.RelOut?
    ensures Inv(Step(v0, s, c, ch))
  {
    hide Inv, Step, Move, Woken, Holds, RunStatus, Base, Books, Pending, On, Below;
    CpuInRange(s, c);
    ActionStep(v0, s, c, ch);
    match CurPc(s, c).a
    case AcqTest(l) =>
      if s.locked[l].Some? {
        AccessMoveKeeps(s, c, Clear(AL(l), SleepStart(l)));
      } else {
        SeenUnlockedKeeps(s, c, l);
      }
    case AcqTake(l) => TakeSleepLockKeeps(s, c, l);
    case AcqEnd(l) => AcquiredKeeps(s, c, l);
    case AcqAgain(l) => AccessMoveKeeps(s, c, Incr(AL(l), AcqTest(l)));
    case RelUnlock(l) => UnlockKeeps(s, c, l);
    case RelAlarm(l) => AlarmKeeps(s, c, l);
    case RelOut(l) => AccessMoveKeeps(s, c, Clear(AL(l), Work));
  }

  /** The moves into and out of an access lock that change nothing else. */
  lemma AccessMoveKeeps(s: State, c: nat, qc: Pc)
    requires Inv(s) && c < |s.cur| && s.cur[c].Proc? && CurPc(s, c).At?
    requires match CurPc(s, c).a
      case AcqTest(l) => qc == Clear(AL(l), SleepStart(l))
      case AcqAgain(l) => qc == Incr(AL(l), AcqTest(l))
      case RelOut(l) => qc == Clear(AL(l), Work)
      case _ => false
    ensures Inv(Move(s, c, qc))
  {
    hide Inv, Move;
    CpuInRange(s, c);
    ProcMoveKeeps(s, c, qc);
  }

  /** A sleep lock seen unlocked under its access lock stays unlocked until the next step. */
  lemma SeenUnlockedKeeps(s: State, c: nat, l: nat)
    requires Inv(s) && c < |s.cur| && s.cur[c].Proc? && CurPc(s, c) == At(AcqTest(l)) && l < |s.al| && s.locked[l] == None
    ensures Inv(Move(s, c, At(AcqTake(l))))
  {
    var p := s.cur[c].p;
    var pc := At(AcqTake(l));
    var t := Move(s, c, pc);
    assert CpuOk(s, c) && ProcOk(s, p);
    forall d: nat | d < |s.cur|
      ensures Holds(CurPc(t, d), PL) <==> t.pl == Some(d)
    {
      assert CpuOk(s, d) && CurPc(t, d) == if d == c then pc else CurPc(s, d);
    }
    forall q: nat, m: nat | q < |s.pcP| && m < |s.al|
      ensures AccessOk(t, q, m) && OwnerOk(t, q, m)
    {
      assert AccessOk(s, q, m) && OwnerOk(s, q, m);
    }
    FlagStepKeeps(s, t, c, pc);
  }

  /** Process_SleepOn. */
  lemma SleepStepKeeps(v0: int, s: State, c: nat, ch: Choice)
    requires Inv(s) && c < |s.cur| && s.cur[c].Proc? && CurPc(s, c).At? && ch != Interrupt
    requires var a := CurPc(s, c).a;
      a.SleepStart? || a.SleepMark? || a.SleepState? || a.SleepSwitch? || a.SleepBack?
    ensures Inv(Step(v0, s, c, ch))
  {
    hide Inv, Step, Move, SetStatus, SwitchBack, Holds, Similar, WfProc, RunStatus, Base, Books, Pending, On;
    CpuInRange(s, c);
    ActionStep(v0, s, c, ch);
    var p := s.cur[c].p;
    match CurPc(s, c).a
    case SleepStart(l) => PointKeeps(s, c, Incr(PL, SleepMark(l)));
    case SleepMark(l) => MarkKeeps(s, c, Some(l), At(SleepState(l)));
    case SleepState(l) => AnnounceKeeps(s, c, Asleep, At(SleepSwitch(l)));
    case SleepSwitch(l) => YieldKeeps(s, c, At(SleepBack(l)));
    case SleepBack(l) => MarkKeeps(s, c, None, Clear(PL, AcqAgain(l)));
  }

  /** The moves of a process that change nothing else. */
  predicate PlainMove(a: Act, qc: Pc) {
    match a
    case First => qc == Clear(PL, Work)
    case Work => qc == Incr(PL, BookScan) || qc == Incr(PL, WaitLoop)
    case SleepStart(l) => qc == Incr(PL, SleepMark(l))
    case SleepMark(l) => qc == At(SleepState(l))
    case SleepBack(l) => qc == Clear(PL, AcqAgain(l))
    case BookScan => qc == Clear(PL, BookAgain)
    case BookAgain => qc == Incr(PL, BookScan)
    case ForkInit(q) => qc == Incr(PL, ForkUndo(q))
    case WaitLoop => qc == Clear(PL, Work) || qc == At(WaitState)
    case PreTest(u) => qc == Incr(PL, PreCheck(u)) || qc == u
    case PreCheck(u) => qc == Clear(PL, PreExit(u)) || qc == At(PreState(u))
    case PreBack(u) => qc == Clear(PL, PreExit(u))
    case PreExit(u) => qc == u
    case _ => false
  }

  lemma PlainMoveSimilar(a: Act, qc: Pc, nl: nat, np: nat)
    requires WfProc(At(a), nl, np) && PlainMove(a, qc)
    ensures Similar(At(a), qc) && WfProc(qc, nl, np) && (Base(qc).ForkPublish? ==> Base(At(a)).ForkPublish?)
  {
    hide Similar, WfProc, Base;
    if a.PreTest? || a.PreCheck? || a.PreBack? || a.PreExit? {
      PreMoveSimilar(a, qc, nl, np);
    } else {
      BaseMoveSimilar(a, qc, nl, np);
    }
  }

  lemma PreMoveSimilar(a: Act, qc: Pc, nl: nat, np: nat)
    requires WfProc(At(a), nl, np) && PlainMove(a, qc) && (a.PreTest? || a.PreCheck? || a.PreBack? || a.PreExit?)
    ensures Similar(At(a), qc) && WfProc(qc, nl, np) && (Base(qc).ForkPublish? ==> Base(At(a)).ForkPublish?)
  {
    assert Below(At(a)) == a.u && InInterrupt(At(a));
    assert qc != a.u ==> Below(qc) == a.u && InInterrupt(qc);
  }

  lemma BaseMoveSimilar(a: Act, qc: Pc, nl: nat, np: nat)
    requires WfProc(At(a), nl, np) && PlainMove(a, qc) && !(a.PreTest? || a.PreCheck? || a.PreBack? || a.PreExit?)
    ensures Similar(At(a), qc) && WfProc(qc, nl, np) && (Base(qc).ForkPublish? ==> Base(At(a)).ForkPublish?)
  {
    hide Similar, WfProc, Base;
    if a.SleepStart? || a.SleepMark? || a.SleepBack? {
      SleepMoveSimilar(a, qc, nl, np);
    } else {
      OtherMoveSimilar(a, qc, nl, np);
    }
  }

  lemma SleepMoveSimilar(a: Act, qc: Pc, nl: nat, np: nat)
    requires WfProc(At(a), nl, np) && PlainMove(a, qc) && (a.SleepStart? || a.SleepMark? || a.SleepBack?)
    ensures Similar(At(a), qc) && WfProc(qc, nl, np) && !Base(qc).ForkPublish?
  {
    assert Below(At(a)) == At(a) && Below(qc) == qc;
  }

  lemma OtherMoveSimilar(a: Act, qc: Pc, nl: nat, np: nat)
    requires WfProc(At(a), nl, np) && PlainMove(a, qc)
    requires a.First? || a.Work? || a.BookScan? || a.BookAgain? || a.ForkInit? || a.WaitLoop?
    ensures Similar(At(a), qc) && WfProc(qc, nl, np) && !Base(qc).ForkPublish?
  {
    hide Similar, WfProc, Base;
    if a.First? || a.Work? || a.WaitLoop? {
      WorkMoveSimilar(a, qc, nl, np);
    } else {
      BookMoveSimilar(a, qc, nl, np);
    }
  }

  lemma WorkMoveSimilar(a: Act, qc: Pc, nl: nat, np: nat)
    requires WfProc(At(a), nl, np) && PlainMove(a, qc) && (a.First? || a.Work? || a.WaitLoop?)
    ensures Similar(At(a), qc) && WfProc(qc, nl, np) && !Base(qc).ForkPublish?
  {
    assert Below(At(a)) == At(a) && Below(qc) == qc;
  }

  lemma BookMoveSimilar(a: Act, qc: Pc, nl: nat, np: nat)
    requires WfProc(At(a), nl, np) && PlainMove(a, qc) && (a.BookScan? || a.BookAgain? || a.ForkInit?)
    ensures Similar(At(a), qc) && WfProc(qc, nl, np) && !Base(qc).ForkPublish?
  {
    assert Below(At(a)) == At(a) && Below(qc) == qc;
  }

  lemma PointKeeps(s: State, c: nat, qc: Pc)
    requires Inv(s) && c < |s.cur| && s.cur[c].Proc? && CurPc(s, c).At? && PlainMove(CurPc(s, c).a, qc)
    ensures Inv(Move(s, c, qc))
  {
    hide Inv, Move, PlainMove, Holds, Similar, WfProc, RunStatus, Base, Books, Pending, On;
    CpuInRange(s, c);
    PlainMoveSimilar(CurPc(s, c).a, qc, |s.al|, |s.pcP|);
    ProcMoveKeeps(s, c, qc);
  }

  lemma MarkKeeps(s: State, c: nat, w: Option<nat>, qc: Pc)
    requires Inv(s) && c < |s.cur| && s.cur[c].Proc? && CurPc(s, c).At? && PlainMove(CurPc(s, c).a, qc)
    ensures s.cur[c].p < |s.wake| && Inv(Move(s.(wake := s.wake[s.cur[c].p := w]), c, qc))
  {
    hide Inv, Move, PlainMove, Holds, Similar, WfProc, RunStatus, Base, Books, Pending, On;
    CpuInRange(s, c);
    var t := s.(wake := s.wake[s.cur[c].p := w]);
    AlikeKeeps(s, t);
    PointKeeps(t, c, qc);
  }

  /** A process announces the status it will have once it has left the CPU. */
  predicate Announces(a: Act, st: Status, qc: Pc) {
    match a
    case SleepState(l) => st == Asleep && qc == At(SleepSwitch(l))
    case WaitState => st == Asleep && qc == At(WaitSwitch)
    case PreState(u) => st == Runnable && qc == At(PreSwitch(u))
    case _ => false
  }

  lemma AnnouncePoint(a: Act, st: Status, qc: Pc, nl: nat, np: nat)
    requires WfProc(At(a), nl, np) && Announces(a, st, qc)
    ensures WfProc(qc, nl, np) && Holds(At(a), PL) && (forall r: LockRef :: Holds(qc, r) <==> Holds(At(a), r))
    ensures Pending(qc) == Pending(At(a)) && Base(qc).AcqTake? == Base(At(a)).AcqTake? && (Base(qc).AcqTake? ==> Base(qc) == Base(At(a)))
    ensures st == RunStatus(qc) != Running && Books(qc) == Books(At(a)) && (Base(qc).ForkPublish? ==> Base(At(a)).ForkPublish?)
  {
  }

  lemma AnnounceKeeps(s: State, c: nat, st: Status, qc: Pc)
    requires Inv(s) && c < |s.cur| && s.cur[c].Proc? && CurPc(s, c).At? && Announces(CurPc(s, c).a, st, qc)
    ensures s.cur[c].p < |s.status| && Inv(Move(SetStatus(s, s.cur[c].p, st), c, qc))
  {
    hide Inv, Move, SetStatus, Announces, Holds, WfProc, RunStatus, Base, Books, Pending, On;
    CpuInRange(s, c);
    AnnouncePoint(CurPc(s, c).a, st, qc, |s.al|, |s.pcP|);
    StatusStepKeeps(s, c, s.cur[c].p, st, qc);
  }

  /** Where a process resumes after each switch. */
  predicate Yields(a: Act, qc: Pc) {
    match a
    case SleepSwitch(l) => qc == At(SleepBack(l))
    case WaitSwitch => qc == At(WaitLoop)
    case PreSwitch(u) => qc == At(PreBack(u))
    case _ => false
  }

  lemma YieldPoint(a: Act, qc: Pc, nl: nat, np: nat)
    requires WfProc(At(a), nl, np) && Yields(a, qc)
    ensures WfProc(qc, nl, np) && Resumable(qc) && Holds(At(a), PL) && (forall r: LockRef :: Holds(qc, r) <==> Holds(At(a), r))
    ensures Pending(qc) == Pending(At(a)) && (Base(qc).AcqTake? ==> Base(qc) == Base(At(a)))
    ensures RunStatus(At(a)) != Running && Books(qc) == Books(At(a)) && (Base(qc).ForkPublish? ==> Base(At(a)).ForkPublish?)
  {
  }

  lemma YieldKeeps(s: State, c: nat, qc: Pc)
    requires Inv(s) && c < |s.cur| && s.cur[c].Proc? && CurPc(s, c).At? && Yields(CurPc(s, c).a, qc)
    ensures s.cur[c].p < |s.pcP| && s.home[s.cur[c].p] == c
    ensures var t := SwitchBack(Move(s, c, qc), c, s.cur[c].p);
      Inv(t) && t.cur[c] == Sched(c) && t.pl == s.pl == Some(c)
  {
    hide Inv, Move, SwitchBack, Yields, Holds, WfProc, RunStatus, Base, Books, Pending, Resumable;
    CpuInRange(s, c);
    HomeIsHere(s, c);
    YieldPoint(CurPc(s, c).a, qc, |s.al|, |s.pcP|);
    SwitchBackKeeps(s, c, qc);
  }

  lemma HomeIsHere(s: State, c: nat)
    requires Inv(s) && c < |s.cur| && s.cur[c].Proc?
    ensures s.cur[c].p < |s.pcP| && s.home[s.cur[c].p] == c
  {
    assert CpuOk(s, c);
  }

  /** Process_Fork and Scheduler_Book. */
  lemma ForkStepKeeps(v0: int, s: State, c: nat, ch: Choice)
    requires Inv(s) && c < |s.cur| && s.cur[c].Proc? && CurPc(s, c).At? && ch != Interrupt
    requires var a := CurPc(s, c).a;
      a.BookScan? || a.BookAgain? || a.ForkInit? || a.ForkPublish? || a.ForkUndo?
    ensures Inv(Step(v0, s, c, ch))
  {
    hide Inv, Step, Move, SetStatus, SwitchBack, FirstIdle, Holds, Similar, RunStatus, Base, Books, Pending, On;
    CpuInRange(s, c);
    ActionStep(v0, s, c, ch);
    var p := s.cur[c].p;
    match CurPc(s, c).a
    case BookScan =>
      var q := FirstIdle(s.status, 0);
      if q < |s.status| {
        BookKeeps(s, c, q);
      } else {
        PointKeeps(s, c, Clear(PL, BookAgain));
      }
    case BookAgain => PointKeeps(s, c, Incr(PL, BookScan));
    case ForkInit(q) =>
      if ch == Refuse {
        PointKeeps(s, c, Incr(PL, ForkUndo(q)));
      } else {
        ForkInitKeeps(s, c, q, s.vetoP[q := v0]);
      }
    case ForkPublish(q) => SettleKeeps(s, c, q, Runnable);
    case ForkUndo(q) => SettleKeeps(s, c, q, Idle);
  }

  lemma BookKeeps(s: State, c: nat, q: nat)
    requires Inv(s) && c < |s.cur| && s.cur[c].Proc? && CurPc(s, c) == At(BookScan) && q < |s.pcP| && s.status[q] == Idle
    ensures Inv(Move(SetStatus(s, q, Booked(s.cur[c].p)), c, Clear(PL, ForkInit(q))))
  {
    hide Inv, Move, SetStatus;
    CpuInRange(s, c);
    IdleSlot(s, q);
    StatusStepKeeps(s, c, q, Booked(s.cur[c].p), Clear(PL, ForkInit(q)));
  }

  /** Publishing a booked slot, or giving it back. */
  lemma SettleKeeps(s: State, c: nat, q: nat, st: Status)
    requires Inv(s) && c < |s.cur| && s.cur[c].Proc?
    requires (CurPc(s, c) == At(ForkPublish(q)) && st == Runnable) || (CurPc(s, c) == At(ForkUndo(q)) && st == Idle)
    ensures q < |s.pcP| && Inv(Move(SetStatus(s, q, st), c, Clear(PL, Work)))
  {
    hide Inv, Move, SetStatus;
    CpuInRange(s, c);
    BookedSlot(s, s.cur[c].p);
    StatusStepKeeps(s, c, q, st, Clear(PL, Work));
  }

  /** Process_Wait. */
  lemma WaitStepKeeps(v0: int, s: State, c: nat, ch: Choice)
    requires Inv(s) && c < |s.cur| && s.cur[c].Proc? && CurPc(s, c).At? && ch != Interrupt
    requires CurPc(s, c).a.WaitLoop? || CurPc(s, c).a.WaitState? || CurPc(s, c).a.WaitSwitch?
    ensures Inv(Step(v0, s, c, ch))
  {
    hide Inv, Step, Move, SetStatus, SwitchBack, Holds, Similar, WfProc, RunStatus, Base, Books, Pending, On;
    CpuInRange(s, c);
    ActionStep(v0, s, c, ch);
    match CurPc(s, c).a
    case WaitLoop => PointKeeps(s, c, if ch == Refuse then Clear(PL, Work) else At(WaitState));
    case WaitState => AnnounceKeeps(s, c, Asleep, At(WaitSwitch));
    case WaitSwitch => YieldKeeps(s, c, At(WaitLoop));
  }

  /** Process_Preempt. */
  lemma PreemptStepKeeps(v0: int, s: State, c: nat, ch: Choice)
    requires Inv(s) && c < |s.cur| && s.cur[c].Proc? && CurPc(s, c).At? && InInterrupt(CurPc(s, c)) && ch != Interrupt
    ensures Inv(Step(v0, s, c, ch))
  {
    hide Inv, Step, Move, SetStatus, SwitchBack, Holds, Similar, WfProc, RunStatus, Base, Books, Pending, On;
    CpuInRange(s, c);
    ActionStep(v0, s, c, ch);
    var p := s.cur[c].p;
    match CurPc(s, c).a
    case PreTest(u) => PointKeeps(s, c, if s.vetoP[p] == 0 then Incr(PL, PreCheck(u)) else u);
    case PreCheck(u) => PointKeeps(s, c, if ch == Refuse || s.status[p] != Running then Clear(PL, PreExit(u)) else At(PreState(u)));
    case PreState(u) => AnnounceKeeps(s, c, Runnable, At(PreSwitch(u)));
    case PreSwitch(u) => YieldKeeps(s, c, At(PreBack(u)));
    case PreBack(u) => PointKeeps(s, c, Clear(PL, PreExit(u)));
    case PreExit(u) => PointKeeps(s, c, u);
  }

  /** First entry, and entering a function from outside. */
  lemma WorkStepKeeps(v0: int, s: State, c: nat, ch: Choice)
    requires Inv(s) && c < |s.cur| && s.cur[c].Proc? && (CurPc(s, c) == At(First) || CurPc(s, c) == At(Work)) && ch != Interrupt
    ensures Inv(Step(v0, s, c, ch))
  {
    hide Inv, Step, Move, Holds, Similar, WfProc, RunStatus, Base, Books, Pending, On;
    CpuInRange(s, c);
    ActionStep(v0, s, c, ch);
    var p := s.cur[c].p;
    if CurPc(s, c).a == First {
      PointKeeps(s, c, Clear(PL, Work));
    } else {
      match ch
      case StartAcquire(l) =>
        if l < |s.al| {
          StartAcquireKeeps(s, c, l);
        }
      case StartRelease(l) =>
        if l < |s.al| && l in s.owns[p] {
          StartReleaseKeeps(s, c, l);
        }
      case StartFork => PointKeeps(s, c, Incr(PL, BookScan));
      case StartWait => PointKeeps(s, c, Incr(PL, WaitLoop));
      case _ =>
    }
  }

  lemma StartAcquireKeeps(s: State, c: nat, l: nat)
    requires Inv(s) && c < |s.cur| && s.cur[c].Proc? && CurPc(s, c) == At(Work) && l < |s.al|
    ensures Inv(Move(s, c, Incr(AL(l), AcqTest(l))))
  {
    ProcMoveKeeps(s, c, Incr(AL(l), AcqTest(l)));
  }

  /** Every step of every CPU, whatever the environment chooses and whatever veto count new processes
      start with, keeps the invariant. */
  lemma StepKeeps(v0: int, s: State, c: nat, ch: Choice)
    requires Inv(s) && c < |s.cur|
    ensures Inv(Step(v0, s, c, ch))
  {
    hide Step;
    var pc := CurPc(s, c);
    CpuInRange(s, c);
    if ch == Interrupt && s.cur[c].Proc? {
      InterruptKeeps(s, c);
      InterruptStep(v0, s, c);
    } else if !pc.At? {
      LockStepKeeps(v0, s, c, ch);
    } else if s.cur[c].Sched? {
      SchedStepKeeps(v0, s, c, ch);
    } else if InInterrupt(pc) {
      PreemptStepKeeps(v0, s, c, ch);
    } else {
      PlainStepKeeps(v0, s, c, ch);
    }
  }

  lemma InterruptStep(v0: int, s: State, c: nat)
    requires Shape(s) && c < |s.cur| && s.cur[c].Proc?
    ensures Step(v0, s, c, Interrupt) == Move(s, c, At(PreTest(CurPc(s, c))))
  {
  }

  lemma PlainStepKeeps(v0: int, s: State, c: nat, ch: Choice)
    requires Inv(s) && c < |s.cur| && s.cur[c].Proc? && CurPc(s, c).At? && !InInterrupt(CurPc(s, c)) && ch != Interrupt
    ensures Inv(Step(v0, s, c, ch))
  {
    hide Step;
    CpuInRange(s, c);
    var a := CurPc(s, c).a;
    if a == First || a == Work {
      WorkStepKeeps(v0, s, c, ch);
    } else if a.SleepStart? || a.SleepMark? || a.SleepState? || a.SleepSwitch? || a.SleepBack? {
      SleepStepKeeps(v0, s, c, ch);
    } else if a.AcqTest? || a.AcqTake? || a.AcqEnd? || a.AcqAgain? || a.RelUnlock? || a.RelAlarm? || a.RelOut? {
      SleepLockStepKeeps(v0, s, c, ch);
    } else {
      OtherStepKeeps(v0, s, c, ch);
    }
  }

  lemma OtherStepKeeps(v0: int, s: State, c: nat, ch: Choice)
    requires Inv(s) && c < |s.cur| && s.cur[c].Proc? && CurPc(s, c).At? && ch != Interrupt
    requires var a := CurPc(s, c).a;
      a.BookScan? || a.BookAgain? || a.ForkInit? || a.ForkPublish? || a.ForkUndo? || a.WaitLoop? || a.WaitState? || a.WaitSwitch?
    ensures Inv(Step(v0, s, c, ch))
  {
    hide Step, Inv;
    CpuInRange(s, c);
    var a := CurPc(s, c).a;
    if a.WaitLoop? || a.WaitState? || a.WaitSwitch? {
      WaitStepKeeps(v0, s, c, ch);
    } else {
      ForkStepKeeps(v0, s, c, ch);
    }
  }

  /** The invariant holds after every run. */
  lemma {:induction false} RunKeeps(v0: int, s: State, steps: seq<(nat, Choice)>)
    requires Inv(s) && forall i :: 0 <= i < |steps| ==> steps[i].0 < |s.cur|
    ensures Inv(Run(v0, s, steps))
    decreases |steps|
  {
    if steps != [] {
      StepKeeps(v0, s, steps[0].0, steps[0].1);
      RunKeeps(v0, Step(v0, s, steps[0].0, steps[0].1), steps[1..]);
    }
  }
}

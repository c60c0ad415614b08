/** The scheduler, the sleep lock and preemption as one machine of atomic steps: a step is one access
    to shared state by the thread on one CPU, and a run is any sequence of steps by any CPUs. */
module Kernel {
  import opened Options

  datatype LockRef = PL | AL(l: nat)

  /** A booked slot is annotated with the process that booked it. */
  datatype Status = Idle | Booked(booker: nat) | Runnable | Running | Asleep

  datatype Thread = Sched(c: nat) | Proc(p: nat)

  /** What a thread does next outside the spin lock functions. */
  datatype Act =
    // Schedule, at slot i of the process table
    | SchedTop(i: nat) | SchedCheck(i: nat) | SchedSetup(i: nat) | SchedSwitch(i: nat) | SchedBack(i: nat)
    // a process: first entry, and outside all functions modelled here
    | First | Work
    // SleepLock_Acquire(l) and Process_SleepOn(l)
    | AcqTest(l: nat) | AcqTake(l: nat) | AcqEnd(l: nat) | AcqAgain(l: nat)
    | SleepStart(l: nat) | SleepMark(l: nat) | SleepState(l: nat) | SleepSwitch(l: nat) | SleepBack(l: nat)
    // SleepLock_Release(l) and Scheduler_RaiseAlarm(l)
    | RelUnlock(l: nat) | RelAlarm(l: nat) | RelOut(l: nat)
    // Process_Fork and Scheduler_Book
    | BookScan | BookAgain | ForkInit(q: nat) | ForkPublish(q: nat) | ForkUndo(q: nat)
    // Process_Wait
    | WaitLoop | WaitState | WaitSwitch
    // Process_Preempt, interrupting the thread at u
    | PreTest(u: Pc) | PreCheck(u: Pc) | PreState(u: Pc) | PreSwitch(u: Pc) | PreBack(u: Pc) | PreExit(u: Pc)

  /** Acquiring a spin lock is two steps, raising the veto count and then testing and setting the flag
      until that succeeds; so is releasing it, clearing the flag and then lowering the count.
      Where a thread is: at an action, or inside SpinLock_Acquire(r) or SpinLock_Release(r) with the
      action that follows. */
  datatype Pc =
    | At(a: Act)
    | Incr(r: LockRef, k: Act) | Spin(r: LockRef, k: Act)
    | Clear(r: LockRef, k: Act) | Decr(r: LockRef, k: Act)

  /** The lock flags are annotated with who set them: a CPU for Process_lock, which changes hands
      between the threads of one CPU, and a process for the access flag and the locked flag of each
      sleep lock.  saved tells whether a context slot holds a context that may be resumed; owns is the
      sleep locks a process is between the end of acquiring and the start of releasing. */
  datatype State = State(
    pl: Option<nat>, al: seq<Option<nat>>, locked: seq<Option<nat>>,
    cur: seq<Thread>, pcS: seq<Pc>, savedS: seq<bool>, vetoS: seq<int>,
    pcP: seq<Pc>, savedP: seq<bool>, vetoP: seq<int>,
    status: seq<Status>, home: seq<nat>, wake: seq<Option<nat>>, owns: seq<set<nat>>,
    fault: bool)

  /** What the environment decides at a step. */
  datatype Choice = Go | Refuse | Interrupt | StartAcquire(l: nat) | StartRelease(l: nat) | StartFork | StartWait

  predicate Shape(s: State) {
    && |s.cur| == |s.pcS| == |s.savedS| == |s.vetoS|
    && |s.pcP| == |s.savedP| == |s.vetoP| == |s.status| == |s.home| == |s.wake| == |s.owns|
    && |s.al| == |s.locked|
    && forall c :: 0 <= c < |s.cur| ==> match s.cur[c] case Sched(d) => d < |s.pcS| case Proc(p) => p < |s.pcP|
  }

  predicate SameSize(s: State, t: State) {
    |t.cur| == |s.cur| && |t.pcP| == |s.pcP| && |t.al| == |s.al|
  }

  /** The program counter of the thread on CPU c. */
  function CurPc(s: State, c: nat): Pc
    requires Shape(s) && c < |s.cur|
  {
    match s.cur[c] case Sched(d) => s.pcS[d] case Proc(p) => s.pcP[p]
  }

  // ---------------------------------------------------------------- pieces of steps

  /** The thread on CPU c goes to pc. */
  function Move(s: State, c: nat, pc: Pc): (r: State)
    requires Shape(s) && c < |s.cur|
    ensures Shape(r) && SameSize(s, r)
  {
    match s.cur[c]
    case Sched(d) => s.(pcS := s.pcS[d := pc])
    case Proc(p) => s.(pcP := s.pcP[p := pc])
  }

  /** The veto count at the base of the stack of the thread on CPU c. */
  function AddVeto(s: State, c: nat, n: int): (r: State)
    requires Shape(s) && c < |s.cur|
    ensures Shape(r) && SameSize(s, r)
  {
    match s.cur[c]
    case Sched(d) => s.(vetoS := s.vetoS[d := s.vetoS[d] + n])
    case Proc(p) => s.(vetoP := s.vetoP[p := s.vetoP[p] + n])
  }

  function Flag(s: State, r: LockRef): bool {
    match r case PL => s.pl.Some? case AL(l) => l < |s.al| && s.al[l].Some?
  }

  function SetFlag(s: State, c: nat, r: LockRef): (t: State)
    requires Shape(s) && c < |s.cur|
    ensures Shape(t) && SameSize(s, t)
  {
    match r
    case PL => s.(pl := Some(c))
    case AL(l) => if l < |s.al| && s.cur[c].Proc? then s.(al := s.al[l := Some(s.cur[c].p)]) else s
  }

  function ClearFlag(s: State, r: LockRef): (t: State)
    requires Shape(s)
    ensures Shape(t) && SameSize(s, t)
  {
    match r
    case PL => s.(pl := None)
    case AL(l) => if l < |s.al| then s.(al := s.al[l := None]) else s
  }

  /** KContext_Switch from the scheduler of CPU c to process i; resuming an invalid context faults. */
  function SwitchTo(s: State, c: nat, i: nat): (t: State)
    requires Shape(s) && c < |s.cur| && i < |s.pcP|
    ensures Shape(t) && SameSize(s, t)
  {
    Save(s, c).(cur := s.cur[c := Proc(i)], savedP := s.savedP[i := false], fault := s.fault || !s.savedP[i])
  }

  /** KContext_Switch from process p on CPU c to the scheduler of the CPU recorded as p's home. */
  function SwitchBack(s: State, c: nat, p: nat): (t: State)
    requires Shape(s) && c < |s.cur| && p < |s.pcP| && s.cur[c] == Proc(p)
    ensures Shape(t) && SameSize(s, t)
  {
    var h := s.home[p];
    if h < |s.cur| then
      Save(s, c).(cur := s.cur[c := Sched(h)], savedS := s.savedS[h := false], fault := s.fault || !s.savedS[h])
    else s.(fault := true)
  }

  function Save(s: State, c: nat): (t: State)
    requires Shape(s) && c < |s.cur|
    ensures Shape(t) && SameSize(s, t)
  {
    match s.cur[c]
    case Sched(d) => s.(savedS := s.savedS[d := true])
    case Proc(p) => s.(savedP := s.savedP[p := true])
  }

  function SetStatus(s: State, p: nat, st: Status): (t: State)
    requires Shape(s) && p < |s.status|
    ensures Shape(t) && SameSize(s, t)
  {
    s.(status := s.status[p := st])
  }

  /** Scheduler_RaiseAlarm(l) */
  function Woken(status: seq<Status>, wake: seq<Option<nat>>, l: nat): (r: (seq<Status>, seq<Option<nat>>))
    requires |status| == |wake|
    ensures |r.0| == |r.1| == |status|
  {
    (seq(|status|, i requires 0 <= i < |status| => if status[i] == Asleep && wake[i] == Some(l) then Runnable else status[i]),
     seq(|wake|, i requires 0 <= i < |wake| => if status[i] == Asleep && wake[i] == Some(l) then None else wake[i]))
  }

  /** The first idle slot, or the number of slots. */
  function FirstIdle(status: seq<Status>, i: nat): (q: nat)
    requires i <= |status|
    ensures i <= q <= |status| && (q < |status| ==> status[q] == Idle)
    decreases |status| - i
  {
    if i == |status| || status[i] == Idle then i else FirstIdle(status, i + 1)
  }

  function NextSlot(s: State, i: nat): nat {
    if i + 1 >= |s.pcP| then 0 else i + 1
  }

  // ---------------------------------------------------------------- steps

  /** One step of a scheduler thread at an action. */
  function SchedStep(s: State, c: nat, a: Act): (t: State)
    requires Shape(s) && c < |s.cur|
    ensures Shape(t) && SameSize(s, t)
  {
    match a
    case SchedTop(i) => Move(s, c, Incr(PL, SchedCheck(i)))
    case SchedCheck(i) =>
      if i < |s.status| && s.status[i] == Runnable then Move(SetStatus(s, i, Running), c, At(SchedSetup(i)))
      else Move(s, c, Clear(PL, SchedTop(NextSlot(s, i))))
    case SchedSetup(i) =>
      if i < |s.home| then Move(s.(home := s.home[i := c]), c, At(SchedSwitch(i))) else s
    case SchedSwitch(i) =>
      if i < |s.pcP| then SwitchTo(Move(s, c, At(SchedBack(i))), c, i) else s
    case SchedBack(i) => Move(s, c, Clear(PL, SchedTop(NextSlot(s, i))))
    case _ => s
  }

  /** One step of process p on CPU c at an action. */
  function ProcStep(v0: int, s: State, c: nat, p: nat, a: Act, ch: Choice): (t: State)
    requires Shape(s) && c < |s.cur| && s.cur[c] == Proc(p)
    ensures Shape(t) && SameSize(s, t)
  {
    match a
    case First => Move(s, c, Clear(PL, Work))
    case Work => WorkStep(s, c, p, ch)
    case AcqTest(l) =>
      if l < |s.locked| && s.locked[l].Some? then Move(s, c, Clear(AL(l), SleepStart(l))) else Move(s, c, At(AcqTake(l)))
    case AcqTake(l) =>
      if l < |s.locked| then Move(s.(locked := s.locked[l := Some(p)]), c, Clear(AL(l), AcqEnd(l))) else s
    case AcqEnd(l) => Move(s.(owns := s.owns[p := s.owns[p] + {l}]), c, At(Work))
    case AcqAgain(l) => Move(s, c, Incr(AL(l), AcqTest(l)))
    case SleepStart(l) => Move(s, c, Incr(PL, SleepMark(l)))
    case SleepMark(l) => Move(s.(wake := s.wake[p := Some(l)]), c, At(SleepState(l)))
    case SleepState(l) => Move(SetStatus(s, p, Asleep), c, At(SleepSwitch(l)))
    case SleepSwitch(l) => SwitchBack(Move(s, c, At(SleepBack(l))), c, p)
    case SleepBack(l) => Move(s.(wake := s.wake[p := None]), c, Clear(PL, AcqAgain(l)))
    case RelUnlock(l) =>
      if l < |s.locked| then Move(s.(locked := s.locked[l := None]), c, Incr(PL, RelAlarm(l))) else s
    case RelAlarm(l) =>
      var (st, wk) := Woken(s.status, s.wake, l);
      Move(s.(status := st, wake := wk), c, Clear(PL, RelOut(l)))
    case RelOut(l) => Move(s, c, Clear(AL(l), Work))
    case BookScan =>
      var q := FirstIdle(s.status, 0);
      if q < |s.status| then Move(SetStatus(s, q, Booked(p)), c, Clear(PL, ForkInit(q))) else Move(s, c, Clear(PL, BookAgain))
    case BookAgain => Move(s, c, Incr(PL, BookScan))
    case ForkInit(q) =>
      if ch == Refuse || q >= |s.pcP| then Move(s, c, Incr(PL, ForkUndo(q)))
      else Move(s.(pcP := s.pcP[q := At(First)], savedP := s.savedP[q := true], vetoP := s.vetoP[q := v0]), c, Incr(PL, ForkPublish(q)))
    case ForkPublish(q) =>
      if q < |s.status| then Move(SetStatus(s, q, Runnable), c, Clear(PL, Work)) else s
    case ForkUndo(q) =>
      if q < |s.status| then Move(SetStatus(s, q, Idle), c, Clear(PL, Work)) else s
    case WaitLoop => if ch == Refuse then Move(s, c, Clear(PL, Work)) else Move(s, c, At(WaitState))
    case WaitState => Move(SetStatus(s, p, Asleep), c, At(WaitSwitch))
    case WaitSwitch => SwitchBack(Move(s, c, At(WaitLoop)), c, p)
    case PreTest(_) => PreemptStep(s, c, p, a, ch)
    case PreCheck(_) => PreemptStep(s, c, p, a, ch)
    case PreState(_) => PreemptStep(s, c, p, a, ch)
    case PreSwitch(_) => PreemptStep(s, c, p, a, ch)
    case PreBack(_) => PreemptStep(s, c, p, a, ch)
    case PreExit(_) => PreemptStep(s, c, p, a, ch)
    case _ => s
  }

  /** Process_Preempt, in an interrupt. */
  function PreemptStep(s: State, c: nat, p: nat, a: Act, ch: Choice): (t: State)
    requires Shape(s) && c < |s.cur| && s.cur[c] == Proc(p)
    ensures Shape(t) && SameSize(s, t)
  {
    match a
    case PreTest(u) => if s.vetoP[p] == 0 then Move(s, c, Incr(PL, PreCheck(u))) else Move(s, c, u)
    case PreCheck(u) =>
      if ch == Refuse || s.status[p] != Running then Move(s, c, Clear(PL, PreExit(u))) else Move(s, c, At(PreState(u)))
    case PreState(u) => Move(SetStatus(s, p, Runnable), c, At(PreSwitch(u)))
    case PreSwitch(u) => SwitchBack(Move(s, c, At(PreBack(u))), c, p)
    case PreBack(u) => Move(s, c, Clear(PL, PreExit(u)))
    case PreExit(u) => Move(s, c, u)
    case _ => s
  }

  /** From outside the functions modelled a process may enter any of them; it releases only a sleep
      lock it owns. */
  function WorkStep(s: State, c: nat, p: nat, ch: Choice): (t: State)
    requires Shape(s) && c < |s.cur| && s.cur[c] == Proc(p)
    ensures Shape(t) && SameSize(s, t)
  {
    match ch
    case StartAcquire(l) => if l < |s.al| then Move(s, c, Incr(AL(l), AcqTest(l))) else s
    case StartRelease(l) =>
      if l < |s.al| && l in s.owns[p] then Move(s.(owns := s.owns[p := s.owns[p] - {l}]), c, Incr(AL(l), RelUnlock(l))) else s
    case StartFork => Move(s, c, Incr(PL, BookScan))
    case StartWait => Move(s, c, Incr(PL, WaitLoop))
    case _ => s
  }

  predicate InInterrupt(pc: Pc) {
    var a := if pc.At? then pc.a else pc.k;
    a.PreTest? || a.PreCheck? || a.PreState? || a.PreSwitch? || a.PreBack? || a.PreExit?
  }

  /** One step of the thread on CPU c.  v0 is the veto count a new process's stack starts with. */
  function Step(v0: int, s: State, c: nat, ch: Choice): (t: State)
    requires Shape(s) && c < |s.cur|
    ensures Shape(t) && SameSize(s, t)
  {
    var pc := CurPc(s, c);
    if ch == Interrupt && s.cur[c].Proc? then Move(s, c, At(PreTest(pc)))
    else
      match pc
      case Incr(r, k) => Move(AddVeto(s, c, 1), c, Spin(r, k))
      case Spin(r, k) => if Flag(s, r) then s else Move(SetFlag(s, c, r), c, At(k))
      case Clear(r, k) => Move(ClearFlag(s, r), c, Decr(r, k))
      case Decr(r, k) => Move(AddVeto(s, c, -1), c, At(k))
      case At(a) => if s.cur[c].Sched? then SchedStep(s, c, a) else ProcStep(v0, s, c, s.cur[c].p, a, ch)
  }

  /** A run: any CPUs, any choices, in any order. */
  function Run(v0: int, s: State, steps: seq<(nat, Choice)>): (t: State)
    requires Shape(s) && forall i :: 0 <= i < |steps| ==> steps[i].0 < |s.cur|
    ensures Shape(t) && SameSize(s, t)
    decreases |steps|
  {
    if steps == [] then s
    else Run(v0, Step(v0, s, steps[0].0, steps[0].1), steps[1..])
  }
}

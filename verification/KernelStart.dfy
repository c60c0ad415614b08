/** Which count a new process's stack must start with.  The code starts it at zero. */
module KernelStart {
  import opened Options
  import opened Kernel
  import opened KernelInv
  import opened KernelTheorems

  /** One CPU, one process, one sleep lock. */
  function Small(pl: Option<nat>, al: Option<nat>, cur: Thread, sched: Pc, savedS: bool, vetoS: int,
                 pc: Pc, savedP: bool, vetoP: int, status: Status): (s: State)
    requires cur == Sched(0) || cur == Proc(0)
    ensures Shape(s)
  {
    State(pl, [al], [None], [cur], [sched], [savedS], [vetoS], [pc], [savedP], [vetoP], [status], [0], [None], [{}], false)
  }

  lemma SmallStart(v0: int)
    ensures Reachable(v0, Small(None, None, Sched(0), At(SchedTop(0)), false, 0, At(First), true, v0, Runnable))
  {
    var s := Small(None, None, Sched(0), At(SchedTop(0)), false, 0, At(First), true, v0, Runnable);
    assert Init(v0, s);
    assert InBounds(s, []) && s == Run(v0, s, []);
  }

  /** One more step of the CPU. */
  lemma Then(v0: int, s: State, ch: Choice, t: State)
    requires Reachable(v0, s) && Shape(s) && |s.cur| > 0 && Step(v0, s, 0, ch) == t
    ensures Reachable(v0, t)
  {
    ReachableStep(v0, s, 0, ch);
  }

  /** The process while its CPU's scheduler waits to be switched back to. */
  function Live(pl: Option<nat>, al: Option<nat>, pc: Pc, veto: int, status: Status): (s: State)
    ensures Shape(s)
  {
    Small(pl, al, Proc(0), At(SchedBack(0)), true, 1, pc, false, veto, status)
  }

  lemma Dispatched(v0: int)
    ensures Reachable(v0, Live(Some(0), None, At(First), v0, Running))
  {
    hide Reachable, Init;
    var s0 := Small(None, None, Sched(0), At(SchedTop(0)), false, 0, At(First), true, v0, Runnable);
    var s1 := s0.(pcS := [Incr(PL, SchedCheck(0))]);
    var s2 := s0.(pcS := [Spin(PL, SchedCheck(0))], vetoS := [1]);
    var s3 := s0.(pcS := [At(SchedCheck(0))], vetoS := [1], pl := Some(0));
    var s4 := s3.(pcS := [At(SchedSetup(0))], status := [Running]);
    var s5 := s4.(pcS := [At(SchedSwitch(0))]);
    SmallStart(v0);
    Then(v0, s0, Go, s1);
    Then(v0, s1, Go, s2);
    Then(v0, s2, Go, s3);
    Then(v0, s3, Go, s4);
    Then(v0, s4, Go, s5);
    Then(v0, s5, Go, Live(Some(0), None, At(First), v0, Running));
  }

  /** The process leaves its first entry. */
  lemma Entered(v0: int)
    ensures Reachable(v0, Live(None, None, At(Work), v0 - 1, Running))
  {
    hide Reachable;
    Dispatched(v0);
    var s0 := Live(Some(0), None, At(First), v0, Running);
    var s1 := Live(Some(0), None, Clear(PL, Work), v0, Running);
    var s2 := Live(None, None, Decr(PL, Work), v0, Running);
    Then(v0, s0, Go, s1);
    Then(v0, s1, Go, s2);
    Then(v0, s2, Go, Live(None, None, At(Work), v0 - 1, Running));
  }

  /** With the count at zero a preemption passes its test. */
  lemma TestPassed(v0: int, al: Option<nat>, u: Pc)
    requires Reachable(v0, Live(None, al, u, 0, Running))
    ensures Reachable(v0, Live(None, al, Spin(PL, PreCheck(u)), 1, Running))
  {
    hide Reachable;
    var s0 := Live(None, al, u, 0, Running);
    var s1 := Live(None, al, At(PreTest(u)), 0, Running);
    var s2 := Live(None, al, Incr(PL, PreCheck(u)), 0, Running);
    Then(v0, s0, Interrupt, s1);
    Then(v0, s1, Go, s2);
    Then(v0, s2, Go, Live(None, al, Spin(PL, PreCheck(u)), 1, Running));
  }

  /** With Process_lock free it then gets as far as leaving the CPU. */
  lemma Preempted(v0: int, al: Option<nat>, u: Pc)
    requires Reachable(v0, Live(None, al, u, 0, Running))
    ensures Reachable(v0, Live(Some(0), al, At(PreSwitch(u)), 1, Runnable))
  {
    hide Reachable;
    TestPassed(v0, al, u);
    LockTaken(v0, al, u);
    var s1 := Live(Some(0), al, At(PreCheck(u)), 1, Running);
    var s2 := Live(Some(0), al, At(PreState(u)), 1, Running);
    Then(v0, s1, Go, s2);
    Then(v0, s2, Go, Live(Some(0), al, At(PreSwitch(u)), 1, Runnable));
  }

  lemma LockTaken(v0: int, al: Option<nat>, u: Pc)
    requires Reachable(v0, Live(None, al, Spin(PL, PreCheck(u)), 1, Running))
    ensures Reachable(v0, Live(Some(0), al, At(PreCheck(u)), 1, Running))
  {
    hide Reachable;
    Then(v0, Live(None, al, Spin(PL, PreCheck(u)), 1, Running), Go, Live(Some(0), al, At(PreCheck(u)), 1, Running));
  }

  /** From one, a preemption that has yet to test the count is itself preempted. */
  lemma PreemptedTwice()
    ensures Reachable(1, Live(Some(0), None, At(PreSwitch(At(PreTest(At(Work))))), 1, Runnable))
  {
    hide Reachable;
    Entered(1);
    Then(1, Live(None, None, At(Work), 0, Running), Interrupt, Live(None, None, At(PreTest(At(Work))), 0, Running));
    Preempted(1, None, At(PreTest(At(Work))));
  }

  /** From zero, a process inside SleepLock_Acquire passes the test holding the access lock. */
  lemma PreemptedHolding()
    ensures Reachable(0, Live(Some(0), Some(0), At(PreSwitch(At(AcqTest(0)))), 1, Runnable))
  {
    hide Reachable;
    Entered(0);
    var s0 := Live(None, None, At(Work), -1, Running);
    var s1 := Live(None, None, Incr(AL(0), AcqTest(0)), -1, Running);
    var s2 := Live(None, None, Spin(AL(0), AcqTest(0)), 0, Running);
    var s3 := Live(None, Some(0), At(AcqTest(0)), 0, Running);
    Then(0, s0, StartAcquire(0), s1);
    Then(0, s1, Go, s2);
    Then(0, s2, Go, s3);
    Preempted(0, Some(0), At(AcqTest(0)));
  }

  /** From zero, an interrupt on first entry waits for the lock its own thread holds. */
  lemma SpinsOnItself()
    ensures Reachable(0, Live(Some(0), None, Spin(PL, PreCheck(At(First))), 1, Running))
  {
    hide Reachable;
    Dispatched(0);
    var s0 := Live(Some(0), None, At(First), 0, Running);
    var s1 := Live(Some(0), None, At(PreTest(At(First))), 0, Running);
    var s2 := Live(Some(0), None, Incr(PL, PreCheck(At(First))), 0, Running);
    Then(0, s0, Interrupt, s1);
    Then(0, s1, Go, s2);
    Then(0, s2, Go, Live(Some(0), None, Spin(PL, PreCheck(At(First))), 1, Running));
  }

  // ---------------------------------------------------------------- exact conditions

  /** In every run the holder of each access lock executes, if and only if the count starts above zero. */
  lemma HoldersExecuteIff(v0: nat)
    ensures (forall s: State :: Reachable(v0, s) ==> HoldersExecute(s)) <==> v0 >= 1
  {
    hide Reachable;
    if v0 >= 1 {
      forall s: State | Reachable(v0, s)
        ensures HoldersExecute(s)
      {
        HoldersStay(v0, s);
      }
    } else {
      PreemptedHolding();
      var s := Live(Some(0), Some(0), At(PreSwitch(At(AcqTest(0)))), 1, Runnable);
      var t := Step(0, s, 0, Go);
      ReachableStep(0, s, 0, Go);
      assert t.al[0] == Some(0) && t.cur[0] == Sched(0) && !On(t, 0);
      assert !HoldersExecute(t);
    }
  }

  /** No cycle of CPUs each spinning on a lock held on the next can form, if and only if the count
      starts above zero. */
  lemma NoWaitingCycleIff(v0: nat)
    ensures (forall s: State, walk: seq<nat> :: Reachable(v0, s) ==> !WaitingCycle(s, walk)) <==> v0 >= 1
  {
    hide Reachable;
    if v0 >= 1 {
      forall s: State, walk: seq<nat> | Reachable(v0, s)
        ensures !WaitingCycle(s, walk)
      {
        NoWaitingCycle(v0, s, walk);
      }
    } else {
      SpinsOnItself();
      var s := Live(Some(0), None, Spin(PL, PreCheck(At(First))), 1, Running);
      assert HeldHere(Below(CurPc(s, 0)), PL);
      assert WaitsOn(s, 0, 0);
      assert WaitingCycle(s, [0, 0]);
    }
  }

  /** Preemptions happen, and only where no spin lock is held or awaited, exactly when the count starts at the
      one lock handed to a new process. */
  lemma PreemptionWorksIff(v0: nat)
    ensures
      && (forall s: State :: Reachable(v0, s) ==> YieldsClean(s))
      && (exists s: State :: Reachable(v0, s) && Shape(s) && |s.pcP| > 0 && s.pcP[0].At? && s.pcP[0].a.PreSwitch?)
      <==> v0 == 1
  {
    hide Reachable;
    if v0 == 0 {
      PreemptedHolding();
      var s := Live(Some(0), Some(0), At(PreSwitch(At(AcqTest(0)))), 1, Runnable);
      assert AL(0) in Locks(s.pcP[0].a.u);
      assert !YieldsClean(s);
    } else if v0 == 1 {
      Entered(1);
      Preempted(1, None, At(Work));
      assert Live(Some(0), None, At(PreSwitch(At(Work))), 1, Runnable).pcP[0].a.PreSwitch?;
      forall s: State | Reachable(v0, s)
        ensures YieldsClean(s)
      {
        ReachableInv(v0, s);
        CleanYield(v0, s);
      }
    } else {
      forall s: State | Reachable(v0, s) && Shape(s) && |s.pcP| > 0
        ensures !(s.pcP[0].At? && s.pcP[0].a.PreSwitch?)
      {
        if s.pcP[0].At? && s.pcP[0].a.PreSwitch? {
          PreemptsAt(v0, s, 0);
        }
      }
    }
  }
}

/** What each function of the kernel does when nothing disturbs it: runs of one CPU's own steps. */
module KernelRuns {
  import opened Options
  import opened Kernel
  import opened KernelInv
  import opened KernelTheorems

  // ---------------------------------------------------------------- runs of one CPU

  function Own(c: nat, choices: seq<Choice>): (steps: seq<(nat, Choice)>)
    ensures |steps| == |choices|
  {
    seq(|choices|, i requires 0 <= i < |choices| => (c, choices[i]))
  }

  function Gos(n: nat): seq<Choice> {
    seq(n, _ => Go)
  }

  /** The thread on CPU c, alone, gets from s to t. */
  predicate Does(v0: int, s: State, c: nat, choices: seq<Choice>, t: State) {
    Shape(s) && c < |s.cur| && Run(v0, s, Own(c, choices)) == t
  }

  lemma Nothing(v0: int, s: State, c: nat)
    requires Shape(s) && c < |s.cur|
    ensures Does(v0, s, c, [], s)
  {
  }

  lemma Then(v0: int, s: State, c: nat, choices: seq<Choice>, t: State, ch: Choice, u: State)
    requires Does(v0, s, c, choices, t) && Shape(t) && c < |t.cur| && Step(v0, t, c, ch) == u
    ensures Does(v0, s, c, choices + [ch], u)
  {
    hide Step, Run;
    RunExtends(v0, s, Own(c, choices), c, ch);
    assert Own(c, choices + [ch]) == Own(c, choices) + [(c, ch)];
  }

  lemma {:induction false} ThenAll(v0: int, s: State, c: nat, choices: seq<Choice>, t: State, more: seq<Choice>, u: State)
    requires Does(v0, s, c, choices, t) && Does(v0, t, c, more, u)
    ensures Does(v0, s, c, choices + more, u)
    decreases |more|
  {
    hide Step;
    if more == [] {
      assert choices + more == choices;
    } else {
      var mid := Step(v0, t, c, more[0]);
      assert Own(c, more)[0] == (c, more[0]) && Own(c, more)[1..] == Own(c, more[1..]);
      Then(v0, s, c, choices, t, more[0], mid);
      ThenAll(v0, s, c, choices + [more[0]], mid, more[1..], u);
      assert choices + [more[0]] + more[1..] == choices + more;
    }
  }

  // ---------------------------------------------------------------- spin locks

  lemma MoveTwice(s: State, c: nat, pc: Pc, qc: Pc)
    requires Shape(s) && c < |s.cur|
    ensures CurPc(Move(s, c, pc), c) == pc && Move(Move(s, c, pc), c, qc) == Move(s, c, qc)
  {
    match s.cur[c]
    case Sched(d) => assert s.pcS[d := pc][d := qc] == s.pcS[d := qc];
    case Proc(p) => assert s.pcP[p := pc][p := qc] == s.pcP[p := qc];
  }

  lemma Stays(s: State, c: nat)
    requires Shape(s) && c < |s.cur|
    ensures Move(s, c, CurPc(s, c)) == s
  {
    match s.cur[c]
    case Sched(d) => assert s.pcS[d := s.pcS[d]] == s.pcS;
    case Proc(p) => assert s.pcP[p := s.pcP[p]] == s.pcP;
  }

  /** The state with lock r taken on CPU c. */
  function Holding(s: State, c: nat, r: LockRef): (t: State)
    requires Shape(s) && c < |s.cur|
    ensures Shape(t) && SameSize(s, t)
  {
    SetFlag(AddVeto(s, c, 1), c, r)
  }

  function Freed(s: State, c: nat, r: LockRef): (t: State)
    requires Shape(s) && c < |s.cur|
    ensures Shape(t) && SameSize(s, t)
  {
    AddVeto(ClearFlag(s, r), c, -1)
  }

  predicate Lockable(s: State, c: nat, r: LockRef) {
    Shape(s) && c < |s.cur| && !Flag(s, r) && (r.AL? ==> r.l < |s.al| && s.cur[c].Proc?)
  }

  lemma TakenAndFreed(s: State, c: nat, r: LockRef)
    requires Lockable(s, c, r)
    ensures Freed(Holding(s, c, r), c, r) == s
  {
    var t := Freed(Holding(s, c, r), c, r);
    assert t.vetoS == s.vetoS && t.vetoP == s.vetoP && t.al == s.al;
  }

  lemma IncrSteps(v0: int, s: State, c: nat, r: LockRef, k: Act)
    requires Lockable(s, c, r)
    ensures Step(v0, Move(s, c, Incr(r, k)), c, Go) == Move(AddVeto(s, c, 1), c, Spin(r, k))
    ensures Step(v0, Move(AddVeto(s, c, 1), c, Spin(r, k)), c, Go) == Move(Holding(s, c, r), c, At(k))
  {
    hide SchedStep, ProcStep;
    MoveTwice(s, c, Incr(r, k), Spin(r, k));
    MoveTwice(AddVeto(s, c, 1), c, Spin(r, k), At(k));
  }

  lemma ClearSteps(v0: int, s: State, c: nat, r: LockRef, k: Act)
    requires Shape(s) && c < |s.cur|
    ensures Step(v0, Move(s, c, Clear(r, k)), c, Go) == Move(ClearFlag(s, r), c, Decr(r, k))
    ensures Step(v0, Move(ClearFlag(s, r), c, Decr(r, k)), c, Go) == Move(Freed(s, c, r), c, At(k))
  {
    hide SchedStep, ProcStep;
    MoveTwice(s, c, Clear(r, k), Decr(r, k));
    MoveTwice(ClearFlag(s, r), c, Decr(r, k), At(k));
  }

  /** SpinLock_Acquire of a free lock, and SpinLock_Release. */
  lemma Takes(v0: int, s: State, c: nat, r: LockRef, k: Act)
    requires Lockable(s, c, r)
    ensures Does(v0, Move(s, c, Incr(r, k)), c, Gos(2), Move(Holding(s, c, r), c, At(k)))
  {
    hide Step, Run, Does, Move, Holding;
    var s0, s1 := Move(s, c, Incr(r, k)), Move(AddVeto(s, c, 1), c, Spin(r, k));
    IncrSteps(v0, s, c, r, k);
    Nothing(v0, s0, c);
    Then(v0, s0, c, [], s0, Go, s1);
    Then(v0, s0, c, [] + [Go], s1, Go, Move(Holding(s, c, r), c, At(k)));
    assert [] + [Go] + [Go] == Gos(2);
  }

  lemma Drops(v0: int, s: State, c: nat, r: LockRef, k: Act)
    requires Shape(s) && c < |s.cur|
    ensures Does(v0, Move(s, c, Clear(r, k)), c, Gos(2), Move(Freed(s, c, r), c, At(k)))
  {
    hide Step, Run, Does, Move, Freed;
    var s0, s1 := Move(s, c, Clear(r, k)), Move(ClearFlag(s, r), c, Decr(r, k));
    ClearSteps(v0, s, c, r, k);
    Nothing(v0, s0, c);
    Then(v0, s0, c, [], s0, Go, s1);
    Then(v0, s0, c, [] + [Go], s1, Go, Move(Freed(s, c, r), c, At(k)));
    assert [] + [Go] + [Go] == Gos(2);
  }

  // ---------------------------------------------------------------- the scheduler

  predicate AtTop(s: State, c: nat, i: nat) {
    && Shape(s) && c < |s.cur| && s.cur[c].Sched? && CurPc(s, c) == At(SchedTop(i)) && i < |s.pcP|
    && s.pl == None
  }

  /** One turn of Schedule at a slot that is not runnable changes nothing and goes on to the next. */
  lemma IdleTurn(v0: int, s: State, c: nat, i: nat)
    requires AtTop(s, c, i) && s.status[i] != Runnable
    ensures Does(v0, s, c, Gos(6), Move(s, c, At(SchedTop(if i + 1 == |s.pcP| then 0 else i + 1))))
  {
    hide Run;
    var next: nat := if i + 1 == |s.pcP| then 0 else i + 1;
    var h := Holding(s, c, PL);
    MoveTwice(s, c, At(SchedTop(i)), Incr(PL, SchedCheck(i)));
    MoveTwice(h, c, At(SchedCheck(i)), Clear(PL, SchedTop(next)));
    Stays(s, c);
    Nothing(v0, s, c);
    Then(v0, s, c, [], s, Go, Move(s, c, Incr(PL, SchedCheck(i))));
    Takes(v0, s, c, PL, SchedCheck(i));
    ThenAll(v0, s, c, [] + [Go], Move(s, c, Incr(PL, SchedCheck(i))), Gos(2), Move(h, c, At(SchedCheck(i))));
    assert Step(v0, Move(h, c, At(SchedCheck(i))), c, Go) == Move(h, c, Clear(PL, SchedTop(next)));
    Then(v0, s, c, [] + [Go] + Gos(2), Move(h, c, At(SchedCheck(i))), Go, Move(h, c, Clear(PL, SchedTop(next))));
    Drops(v0, h, c, PL, SchedTop(next));
    TakenAndFreed(s, c, PL);
    ThenAll(v0, s, c, [] + [Go] + Gos(2) + [Go], Move(h, c, Clear(PL, SchedTop(next))), Gos(2), Move(s, c, At(SchedTop(next))));
    assert [] + [Go] + Gos(2) + [Go] + Gos(2) == Gos(6);
  }

  /** A turn at a runnable slot ends with its process executing on this CPU. */
  lemma DispatchTurn(v0: int, s: State, c: nat, i: nat)
    requires AtTop(s, c, i) && s.status[i] == Runnable
    ensures Executes(Run(v0, s, Own(c, Gos(6))), c, i)
  {
    hide Run;
    var h := Holding(s, c, PL);
    var s1 := Move(h, c, At(SchedCheck(i)));
    var s2 := Move(SetStatus(h, i, Running), c, At(SchedSetup(i)));
    var s3 := Move(SetStatus(h, i, Running).(home := h.home[i := c]), c, At(SchedSwitch(i)));
    MoveTwice(s, c, At(SchedTop(i)), Incr(PL, SchedCheck(i)));
    MoveTwice(h, c, At(SchedCheck(i)), At(SchedSetup(i)));
    MoveTwice(h, c, At(SchedSetup(i)), At(SchedSwitch(i)));
    Stays(s, c);
    Nothing(v0, s, c);
    Then(v0, s, c, [], s, Go, Move(s, c, Incr(PL, SchedCheck(i))));
    Takes(v0, s, c, PL, SchedCheck(i));
    ThenAll(v0, s, c, [] + [Go], Move(s, c, Incr(PL, SchedCheck(i))), Gos(2), s1);
    assert Step(v0, s1, c, Go) == s2;
    Then(v0, s, c, [] + [Go] + Gos(2), s1, Go, s2);
    assert Step(v0, s2, c, Go) == s3;
    Then(v0, s, c, [] + [Go] + Gos(2) + [Go], s2, Go, s3);
    var s4 := Step(v0, s3, c, Go);
    assert Executes(s4, c, i);
    Then(v0, s, c, [] + [Go] + Gos(2) + [Go] + [Go], s3, Go, s4);
    assert [] + [Go] + Gos(2) + [Go] + [Go] + [Go] == Gos(6);
  }

  /** Slots from i up to j, round the table. */
  function Ahead(i: nat, j: nat, n: nat): nat
    requires i < n && j < n
  {
    if i <= j then j - i else j + n - i
  }

  /** Schedule dispatches the first runnable slot that it comes to. */
  lemma {:induction false} DispatchesFirst(v0: int, s: State, c: nat, i: nat, j: nat) returns (n: nat)
    requires AtTop(s, c, i) && j < |s.pcP| && s.status[j] == Runnable
    requires forall p: nat :: p < |s.pcP| && Ahead(i, p, |s.pcP|) < Ahead(i, j, |s.pcP|) ==> s.status[p] != Runnable
    ensures n == 6 * (Ahead(i, j, |s.pcP|) + 1) && Executes(Run(v0, s, Own(c, Gos(n))), c, j)
    decreases Ahead(i, j, |s.pcP|)
  {
    hide Run;
    if i == j {
      DispatchTurn(v0, s, c, i);
      n := 6;
    } else {
      var next: nat := if i + 1 == |s.pcP| then 0 else i + 1;
      var t := Move(s, c, At(SchedTop(next)));
      assert Ahead(i, i, |s.pcP|) == 0;
      IdleTurn(v0, s, c, i);
      MoveTwice(s, c, At(SchedTop(i)), At(SchedTop(next)));
      forall p: nat | p < |s.pcP| && Ahead(next, p, |s.pcP|) < Ahead(next, j, |s.pcP|)
        ensures t.status[p] != Runnable
      {
        assert Ahead(i, p, |s.pcP|) < Ahead(i, j, |s.pcP|);
      }
      var m := DispatchesFirst(v0, t, c, next, j);
      n := 6 + m;
      ThenAll(v0, s, c, Gos(6), t, Gos(m), Run(v0, t, Own(c, Gos(m))));
      assert Gos(6) + Gos(m) == Gos(n);
    }
  }

  /** So in every run, while one slot is runnable and Process_lock is free, any idle scheduler's own
      steps lead to the process in that slot executing on its CPU, whichever slot it looks at first. */
  lemma SchedulerDispatches(v0: int, s: State, c: nat, j: nat)
    requires Reachable(v0, s) && Shape(s) && c < |s.cur| && j < |s.pcP|
    requires s.cur[c].Sched? && CurPc(s, c).At? && CurPc(s, c).a.SchedTop? && s.pl == None
    requires forall p: nat :: p < |s.pcP| ==> (s.status[p] == Runnable <==> p == j)
    ensures exists n: nat :: n <= 6 * |s.pcP| && Executes(Run(v0, s, Own(c, Gos(n))), c, j)
  {
    hide Run, Executes;
    ReachableInv(v0, s);
    assert CpuOk(s, c);
    var i := CurPc(s, c).a.i;
    var n := DispatchesFirst(v0, s, c, i, j);
  }

  // ---------------------------------------------------------------- sleep locks

  predicate Works(s: State, c: nat, p: nat) {
    Shape(s) && c < |s.cur| && s.cur[c] == Proc(p) && s.pcP[p] == At(Work)
  }

  /** A step at an action, from the thread's place to the next. */
  lemma Acts(v0: int, s: State, c: nat, choices: seq<Choice>, x: State, a: Act, ch: Choice, y: State, qc: Pc)
    requires Shape(x) && Shape(y) && c < |x.cur| == |y.cur| && Does(v0, s, c, choices, Move(x, c, At(a)))
    requires Step(v0, Move(x, c, At(a)), c, ch) == Move(y, c, qc)
    ensures Does(v0, s, c, choices + [ch], Move(y, c, qc))
  {
    hide Step, Run;
    Then(v0, s, c, choices, Move(x, c, At(a)), ch, Move(y, c, qc));
  }

  lemma TakesNext(v0: int, s: State, c: nat, choices: seq<Choice>, x: State, r: LockRef, k: Act)
    requires Lockable(x, c, r) && Does(v0, s, c, choices, Move(x, c, Incr(r, k)))
    ensures Does(v0, s, c, choices + Gos(2), Move(Holding(x, c, r), c, At(k)))
  {
    hide Step, Run;
    Takes(v0, x, c, r, k);
    ThenAll(v0, s, c, choices, Move(x, c, Incr(r, k)), Gos(2), Move(Holding(x, c, r), c, At(k)));
  }

  lemma DropsNext(v0: int, s: State, c: nat, choices: seq<Choice>, x: State, r: LockRef, k: Act)
    requires Lockable(x, c, r) && Does(v0, s, c, choices, Move(Holding(x, c, r), c, Clear(r, k)))
    ensures Does(v0, s, c, choices + Gos(2), Move(x, c, At(k)))
  {
    hide Step, Run;
    TakenAndFreed(x, c, r);
    Drops(v0, Holding(x, c, r), c, r, k);
    ThenAll(v0, s, c, choices, Move(Holding(x, c, r), c, Clear(r, k)), Gos(2), Move(x, c, At(k)));
  }

  /** Entering a function that starts by taking a lock. */
  lemma Enters(v0: int, s: State, c: nat, p: nat, ch: Choice, x: State, r: LockRef, k: Act)
    requires Works(s, c, p) && Lockable(x, c, r) && Step(v0, s, c, ch) == Move(x, c, Incr(r, k))
    ensures Does(v0, s, c, [ch] + Gos(2), Move(Holding(x, c, r), c, At(k)))
  {
    hide Step, Run;
    Nothing(v0, s, c);
    Then(v0, s, c, [], s, ch, Move(x, c, Incr(r, k)));
    assert [] + [ch] == [ch];
    TakesNext(v0, s, c, [ch], x, r, k);
  }

  predicate Here(x: State, c: nat, p: nat) {
    Shape(x) && c < |x.cur| && x.cur[c] == Proc(p)
  }

  /** A process's step at an action, given what the action does. */
  lemma StepAt(v0: int, x: State, c: nat, p: nat, a: Act, ch: Choice)
    requires Here(x, c, p) && ch != Interrupt
    ensures Step(v0, Move(x, c, At(a)), c, ch) == ProcStep(v0, Move(x, c, At(a)), c, p, a, ch)
  {
    hide ProcStep;
  }

  lemma AcquireActs(v0: int, x: State, c: nat, p: nat, l: nat)
    requires Here(x, c, p) && l < |x.al| && x.locked[l] == None
    ensures Step(v0, Move(x, c, At(AcqTest(l))), c, Go) == Move(x, c, At(AcqTake(l)))
    ensures Step(v0, Move(x, c, At(AcqTake(l))), c, Go) == Move(x.(locked := x.locked[l := Some(p)]), c, Clear(AL(l), AcqEnd(l)))
    ensures Step(v0, Move(x, c, At(AcqEnd(l))), c, Go) == Move(x.(owns := x.owns[p := x.owns[p] + {l}]), c, At(Work))
  {
    hide Step;
    StepAt(v0, x, c, p, AcqTest(l), Go);
    StepAt(v0, x, c, p, AcqTake(l), Go);
    StepAt(v0, x, c, p, AcqEnd(l), Go);
    MoveTwice(x, c, At(AcqTest(l)), At(AcqTake(l)));
    MoveTwice(x, c, At(AcqTake(l)), Clear(AL(l), AcqEnd(l)));
    MoveTwice(x, c, At(AcqEnd(l)), At(Work));
  }

  /** Changing the sleep lock's flag or its owner goes together with holding any spin lock. */
  lemma HoldingElsewhere(s: State, c: nat, r: LockRef, locked: seq<Option<nat>>, status: seq<Status>, wake: seq<Option<nat>>)
    requires Shape(s) && c < |s.cur| && |locked| == |s.locked| && |status| == |s.status| && |wake| == |s.wake|
    ensures Holding(s.(locked := locked, status := status, wake := wake), c, r) == Holding(s, c, r).(locked := locked, status := status, wake := wake)
    ensures var h := Holding(s, c, r); h.locked == s.locked && h.status == s.status && h.wake == s.wake && h.owns == s.owns && h.cur == s.cur
  {
  }

  /** An undisturbed SleepLock_Acquire of a free lock ends with the process owning it, and changes
      nothing else. */
  lemma AcquiresFree(v0: int, s: State, c: nat, p: nat, l: nat)
    requires Works(s, c, p) && l < |s.al| && s.al[l] == None && s.locked[l] == None
    ensures Does(v0, s, c, [StartAcquire(l)] + Gos(7), s.(locked := s.locked[l := Some(p)], owns := s.owns[p := s.owns[p] + {l}]))
  {
    hide Run, Does, Step, Move, Holding;
    var r := AL(l);
    var h := Holding(s, c, r);
    var g := s.(locked := s.locked[l := Some(p)]);
    var t := g.(owns := s.owns[p := s.owns[p] + {l}]);
    StartsAcquire(v0, s, c, p, l);
    Enters(v0, s, c, p, StartAcquire(l), s, r, AcqTest(l));
    HoldingElsewhere(s, c, r, g.locked, s.status, s.wake);
    AcquireActs(v0, h, c, p, l);
    OwnsNow(v0, g, c, p, l);
    var cs := [StartAcquire(l)] + Gos(2);
    Acts(v0, s, c, cs, h, AcqTest(l), Go, h, At(AcqTake(l)));
    Acts(v0, s, c, cs + [Go], h, AcqTake(l), Go, Holding(g, c, r), Clear(r, AcqEnd(l)));
    DropsNext(v0, s, c, cs + [Go] + [Go], g, r, AcqEnd(l));
    Acts(v0, s, c, cs + [Go] + [Go] + Gos(2), g, AcqEnd(l), Go, t, At(Work));
    assert CurPc(t, c) == At(Work);
    Stays(t, c);
    assert cs + [Go] + [Go] + Gos(2) + [Go] == [StartAcquire(l)] + Gos(7);
  }

  lemma StartsAcquire(v0: int, s: State, c: nat, p: nat, l: nat)
    requires Works(s, c, p) && l < |s.al|
    ensures Step(v0, s, c, StartAcquire(l)) == Move(s, c, Incr(AL(l), AcqTest(l)))
  {
  }

  lemma OwnsNow(v0: int, x: State, c: nat, p: nat, l: nat)
    requires Here(x, c, p)
    ensures Step(v0, Move(x, c, At(AcqEnd(l))), c, Go) == Move(x.(owns := x.owns[p := x.owns[p] + {l}]), c, At(Work))
  {
    hide Step;
    StepAt(v0, x, c, p, AcqEnd(l), Go);
    MoveTwice(x, c, At(AcqEnd(l)), At(Work));
  }

  /** A step of Scheduler_RaiseAlarm wakes exactly the processes asleep on the lock. */
  lemma AlarmWakes(v0: int, s: State, c: nat, l: nat)
    requires Shape(s) && c < |s.cur| && s.cur[c].Proc? && CurPc(s, c) == At(RelAlarm(l))
    ensures var t := Step(v0, s, c, Go);
      forall i :: 0 <= i < |s.status| ==>
        if s.status[i] == Asleep && s.wake[i] == Some(l) then t.status[i] == Runnable && t.wake[i] == None
        else t.status[i] == s.status[i] && t.wake[i] == s.wake[i]
  {
  }

  /** What a release does to the process table. */
  predicate WokenUp(s: State, t: State, l: nat) {
    && |t.status| == |s.status| == |s.wake| == |t.wake|
    && forall i :: 0 <= i < |s.status| ==>
         if s.status[i] == Asleep && s.wake[i] == Some(l) then t.status[i] == Runnable && t.wake[i] == None
         else t.status[i] == s.status[i] && t.wake[i] == s.wake[i]
  }

  /** An undisturbed SleepLock_Release frees the lock, wakes all who sleep on it and nobody else, and
      changes nothing else. */
  lemma ReleasesOwned(v0: int, s: State, c: nat, p: nat, l: nat) returns (t: State)
    requires Works(s, c, p) && l < |s.al| && s.al[l] == None && s.pl == None && l in s.owns[p]
    ensures t == s.(owns := s.owns[p := s.owns[p] - {l}], locked := s.locked[l := None], status := t.status, wake := t.wake)
    ensures WokenUp(s, t, l) && Does(v0, s, c, [StartRelease(l)] + Gos(11), t)
  {
    hide Run, Does, Step, Move, Holding, Woken;
    var r := AL(l);
    var x := s.(owns := s.owns[p := s.owns[p] - {l}]);
    var g := x.(locked := s.locked[l := None]);
    var (st, wk) := Woken(s.status, s.wake, l);
    WokenIs(s, l);
    t := g.(status := st, wake := wk);
    var h, hg, ht := Holding(x, c, r), Holding(g, c, r), Holding(t, c, r);
    StartsRelease(v0, s, c, p, l);
    Enters(v0, s, c, p, StartRelease(l), x, r, RelUnlock(l));
    HoldingElsewhere(x, c, r, g.locked, s.status, s.wake);
    HoldingElsewhere(g, c, r, g.locked, st, wk);
    HoldingElsewhere(hg, c, PL, g.locked, st, wk);
    StillLockable(g, c, l);
    StillLockable(t, c, l);
    UnlockStep(v0, h, c, p, l);
    AlarmStep(v0, Holding(hg, c, PL), c, p, l);
    OutStep(v0, ht, c, p, l);
    var cs := [StartRelease(l)] + Gos(2);
    Acts(v0, s, c, cs, h, RelUnlock(l), Go, hg, Incr(PL, RelAlarm(l)));
    TakesNext(v0, s, c, cs + [Go], hg, PL, RelAlarm(l));
    Acts(v0, s, c, cs + [Go] + Gos(2), Holding(hg, c, PL), RelAlarm(l), Go, Holding(ht, c, PL), Clear(PL, RelOut(l)));
    DropsNext(v0, s, c, cs + [Go] + Gos(2) + [Go], ht, PL, RelOut(l));
    Acts(v0, s, c, cs + [Go] + Gos(2) + [Go] + Gos(2), ht, RelOut(l), Go, ht, Clear(r, Work));
    DropsNext(v0, s, c, cs + [Go] + Gos(2) + [Go] + Gos(2) + [Go], t, r, Work);
    assert CurPc(t, c) == At(Work);
    Stays(t, c);
    assert cs + [Go] + Gos(2) + [Go] + Gos(2) + [Go] + Gos(2) == [StartRelease(l)] + Gos(11);
  }

  lemma StartsRelease(v0: int, s: State, c: nat, p: nat, l: nat)
    requires Works(s, c, p) && l < |s.al| && l in s.owns[p]
    ensures Step(v0, s, c, StartRelease(l)) == Move(s.(owns := s.owns[p := s.owns[p] - {l}]), c, Incr(AL(l), RelUnlock(l)))
  {
  }

  lemma WokenIs(s: State, l: nat)
    requires |s.status| == |s.wake|
    ensures var (st, wk) := Woken(s.status, s.wake, l); WokenUp(s, s.(status := st, wake := wk), l)
  {
  }

  lemma StillLockable(x: State, c: nat, l: nat)
    requires Shape(x) && c < |x.cur| && x.pl == None
    ensures Lockable(Holding(x, c, AL(l)), c, PL)
  {
  }

  lemma UnlockStep(v0: int, x: State, c: nat, p: nat, l: nat)
    requires Here(x, c, p) && l < |x.locked|
    ensures Step(v0, Move(x, c, At(RelUnlock(l))), c, Go) == Move(x.(locked := x.locked[l := None]), c, Incr(PL, RelAlarm(l)))
  {
    hide Step;
    StepAt(v0, x, c, p, RelUnlock(l), Go);
    MoveTwice(x, c, At(RelUnlock(l)), Incr(PL, RelAlarm(l)));
  }

  lemma AlarmStep(v0: int, x: State, c: nat, p: nat, l: nat)
    requires Here(x, c, p)
    ensures var (st, wk) := Woken(x.status, x.wake, l);
      Step(v0, Move(x, c, At(RelAlarm(l))), c, Go) == Move(x.(status := st, wake := wk), c, Clear(PL, RelOut(l)))
  {
    hide Step, Woken;
    StepAt(v0, x, c, p, RelAlarm(l), Go);
    MoveTwice(x, c, At(RelAlarm(l)), Clear(PL, RelOut(l)));
  }

  lemma OutStep(v0: int, x: State, c: nat, p: nat, l: nat)
    requires Here(x, c, p)
    ensures Step(v0, Move(x, c, At(RelOut(l))), c, Go) == Move(x, c, Clear(AL(l), Work))
  {
    hide Step;
    StepAt(v0, x, c, p, RelOut(l), Go);
    MoveTwice(x, c, At(RelOut(l)), Clear(AL(l), Work));
  }

  // ---------------------------------------------------------------- leaving the CPU

  /** The state after process p has left CPU c under Process_lock with a new status, to resume at pc;
      the scheduler of CPU c goes on. */
  function Yielded(s: State, c: nat, p: nat, st: Status, pc: Pc): State
    requires Here(s, c, p)
  {
    s.(pl := Some(c), cur := s.cur[c := Sched(c)], pcP := s.pcP[p := pc], vetoP := s.vetoP[p := s.vetoP[p] + 1],
       savedP := s.savedP[p := true], savedS := s.savedS[c := false], status := s.status[p := st])
  }

  /** The scheduler of the process's own CPU waits for it. */
  predicate AtHome(s: State, c: nat, p: nat) {
    Here(s, c, p) && s.home[p] == c && s.savedS[c] && !s.fault
  }

  lemma YieldStep(v0: int, s: State, c: nat, p: nat, st: Status, a: Act, qc: Pc)
    requires AtHome(s, c, p) && Yields(a, qc)
    ensures Step(v0, Move(SetStatus(Holding(s, c, PL), p, st), c, At(a)), c, Go) == Yielded(s, c, p, st, qc)
  {
    hide Step;
    var x := SetStatus(Holding(s, c, PL), p, st);
    StepAt(v0, x, c, p, a, Go);
    MoveTwice(x, c, At(a), qc);
  }

  lemma Yields1(v0: int, s: State, c: nat, p: nat, choices: seq<Choice>, x: State, st: Status, a: Act, qc: Pc)
    requires AtHome(x, c, p) && Yields(a, qc) && Does(v0, s, c, choices, Move(SetStatus(Holding(x, c, PL), p, st), c, At(a)))
    ensures Does(v0, s, c, choices + [Go], Yielded(x, c, p, st, qc))
  {
    hide Step, Run;
    YieldStep(v0, x, c, p, st, a, qc);
    Then(v0, s, c, choices, Move(SetStatus(Holding(x, c, PL), p, st), c, At(a)), Go, Yielded(x, c, p, st, qc));
  }

  lemma SleepActs(v0: int, x: State, c: nat, p: nat, l: nat)
    requires Here(x, c, p)
    ensures Step(v0, Move(x, c, At(SleepStart(l))), c, Go) == Move(x, c, Incr(PL, SleepMark(l)))
    ensures Step(v0, Move(x, c, At(SleepMark(l))), c, Go) == Move(x.(wake := x.wake[p := Some(l)]), c, At(SleepState(l)))
    ensures Step(v0, Move(x, c, At(SleepState(l))), c, Go) == Move(SetStatus(x, p, Asleep), c, At(SleepSwitch(l)))
  {
    hide Step;
    StepAt(v0, x, c, p, SleepStart(l), Go);
    StepAt(v0, x, c, p, SleepMark(l), Go);
    StepAt(v0, x, c, p, SleepState(l), Go);
    MoveTwice(x, c, At(SleepStart(l)), Incr(PL, SleepMark(l)));
    MoveTwice(x, c, At(SleepMark(l)), At(SleepState(l)));
    MoveTwice(x, c, At(SleepState(l)), At(SleepSwitch(l)));
  }

  lemma SeesLocked(v0: int, x: State, c: nat, p: nat, l: nat)
    requires Here(x, c, p) && l < |x.al| && x.locked[l].Some?
    ensures Step(v0, Move(x, c, At(AcqTest(l))), c, Go) == Move(x, c, Clear(AL(l), SleepStart(l)))
  {
    hide Step;
    StepAt(v0, x, c, p, AcqTest(l), Go);
    MoveTwice(x, c, At(AcqTest(l)), Clear(AL(l), SleepStart(l)));
  }

  /** An undisturbed SleepLock_Acquire of a lock that is taken puts the process to sleep on it, with
      the access lock free again, and hands the CPU to its scheduler. */
  lemma SleepsOnTaken(v0: int, s: State, c: nat, p: nat, l: nat)
    requires Works(s, c, p) && AtHome(s, c, p) && l < |s.al| && s.al[l] == None && s.locked[l].Some? && s.pl == None
    ensures Does(v0, s, c, [StartAcquire(l)] + Gos(11), Yielded(s.(wake := s.wake[p := Some(l)]), c, p, Asleep, At(SleepBack(l))))
  {
    hide Run, Does, Step, Move, Holding, Yielded, SetStatus;
    var r := AL(l);
    var h, hp := Holding(s, c, r), Holding(s, c, PL);
    var w := s.(wake := s.wake[p := Some(l)]);
    StartsAcquire(v0, s, c, p, l);
    Enters(v0, s, c, p, StartAcquire(l), s, r, AcqTest(l));
    HoldingElsewhere(s, c, r, s.locked, s.status, s.wake);
    HoldingElsewhere(s, c, PL, s.locked, s.status, w.wake);
    SeesLocked(v0, h, c, p, l);
    SleepActs(v0, s, c, p, l);
    SleepActs(v0, hp, c, p, l);
    SleepActs(v0, Holding(w, c, PL), c, p, l);
    var cs := [StartAcquire(l)] + Gos(2);
    Acts(v0, s, c, cs, h, AcqTest(l), Go, h, Clear(r, SleepStart(l)));
    DropsNext(v0, s, c, cs + [Go], s, r, SleepStart(l));
    Acts(v0, s, c, cs + [Go] + Gos(2), s, SleepStart(l), Go, s, Incr(PL, SleepMark(l)));
    TakesNext(v0, s, c, cs + [Go] + Gos(2) + [Go], s, PL, SleepMark(l));
    var ds := cs + [Go] + Gos(2) + [Go] + Gos(2);
    Acts(v0, s, c, ds, hp, SleepMark(l), Go, Holding(w, c, PL), At(SleepState(l)));
    Acts(v0, s, c, ds + [Go], Holding(w, c, PL), SleepState(l), Go, SetStatus(Holding(w, c, PL), p, Asleep), At(SleepSwitch(l)));
    Yields1(v0, s, c, p, ds + [Go] + [Go], w, Asleep, SleepSwitch(l), At(SleepBack(l)));
    assert ds + [Go] + [Go] + [Go] == [StartAcquire(l)] + Gos(11);
  }

  lemma WaitActs(v0: int, x: State, c: nat, p: nat)
    requires Here(x, c, p)
    ensures Step(v0, Move(x, c, At(WaitLoop)), c, Go) == Move(x, c, At(WaitState))
    ensures Step(v0, Move(x, c, At(WaitLoop)), c, Refuse) == Move(x, c, Clear(PL, Work))
    ensures Step(v0, Move(x, c, At(WaitState)), c, Go) == Move(SetStatus(x, p, Asleep), c, At(WaitSwitch))
  {
    hide Step;
    StepAt(v0, x, c, p, WaitLoop, Go);
    StepAt(v0, x, c, p, WaitLoop, Refuse);
    StepAt(v0, x, c, p, WaitState, Go);
    MoveTwice(x, c, At(WaitLoop), At(WaitState));
    MoveTwice(x, c, At(WaitLoop), Clear(PL, Work));
    MoveTwice(x, c, At(WaitState), At(WaitSwitch));
  }

  lemma StartsOther(v0: int, s: State, c: nat, p: nat)
    requires Works(s, c, p)
    ensures Step(v0, s, c, StartWait) == Move(s, c, Incr(PL, WaitLoop))
    ensures Step(v0, s, c, StartFork) == Move(s, c, Incr(PL, BookScan))
  {
  }

  /** An undisturbed Process_Wait puts the process to sleep and hands the CPU to its scheduler, or
      returns and changes nothing. */
  lemma WaitsOrReturns(v0: int, s: State, c: nat, p: nat)
    requires Works(s, c, p) && AtHome(s, c, p) && s.pl == None
    ensures Does(v0, s, c, [StartWait] + Gos(5), Yielded(s, c, p, Asleep, At(WaitLoop)))
    ensures Does(v0, s, c, [StartWait] + Gos(2) + [Refuse] + Gos(2), s)
  {
    hide Run, Does, Step, Move, Holding, Yielded, SetStatus;
    var h := Holding(s, c, PL);
    StartsOther(v0, s, c, p);
    HoldingElsewhere(s, c, PL, s.locked, s.status, s.wake);
    WaitActs(v0, h, c, p);
    Enters(v0, s, c, p, StartWait, s, PL, WaitLoop);
    var cs := [StartWait] + Gos(2);
    Acts(v0, s, c, cs, h, WaitLoop, Go, h, At(WaitState));
    Acts(v0, s, c, cs + [Go], h, WaitState, Go, SetStatus(h, p, Asleep), At(WaitSwitch));
    Yields1(v0, s, c, p, cs + [Go] + [Go], s, Asleep, WaitSwitch, At(WaitLoop));
    assert cs + [Go] + [Go] + [Go] == [StartWait] + Gos(5);
    Acts(v0, s, c, cs, h, WaitLoop, Refuse, h, Clear(PL, Work));
    DropsNext(v0, s, c, cs + [Refuse], s, PL, Work);
    assert CurPc(s, c) == At(Work);
    Stays(s, c);
  }

  // ---------------------------------------------------------------- preemption

  lemma TestActs(v0: int, x: State, c: nat, p: nat, u: Pc)
    requires Here(x, c, p)
    ensures x.vetoP[p] == 0 ==> Step(v0, Move(x, c, At(PreTest(u))), c, Go) == Move(x, c, Incr(PL, PreCheck(u)))
    ensures x.vetoP[p] != 0 ==> Step(v0, Move(x, c, At(PreTest(u))), c, Go) == Move(x, c, u)
    ensures Step(v0, Move(x, c, At(PreExit(u))), c, Go) == Move(x, c, u)
  {
    hide Step;
    StepAt(v0, x, c, p, PreTest(u), Go);
    StepAt(v0, x, c, p, PreExit(u), Go);
    MoveTwice(x, c, At(PreTest(u)), Incr(PL, PreCheck(u)));
    MoveTwice(x, c, At(PreTest(u)), u);
    MoveTwice(x, c, At(PreExit(u)), u);
  }

  lemma CheckActs(v0: int, x: State, c: nat, p: nat, u: Pc)
    requires Here(x, c, p)
    ensures x.status[p] == Running ==> Step(v0, Move(x, c, At(PreCheck(u))), c, Go) == Move(x, c, At(PreState(u)))
    ensures Step(v0, Move(x, c, At(PreCheck(u))), c, Refuse) == Move(x, c, Clear(PL, PreExit(u)))
  {
    hide Step;
    StepAt(v0, x, c, p, PreCheck(u), Go);
    StepAt(v0, x, c, p, PreCheck(u), Refuse);
    MoveTwice(x, c, At(PreCheck(u)), At(PreState(u)));
    MoveTwice(x, c, At(PreCheck(u)), Clear(PL, PreExit(u)));
  }

  lemma StateAct(v0: int, x: State, c: nat, p: nat, u: Pc)
    requires Here(x, c, p)
    ensures Step(v0, Move(x, c, At(PreState(u))), c, Go) == Move(SetStatus(x, p, Runnable), c, At(PreSwitch(u)))
  {
    hide Step;
    StepAt(v0, x, c, p, PreState(u), Go);
    MoveTwice(x, c, At(PreState(u)), At(PreSwitch(u)));
  }

  lemma Interrupts(v0: int, s: State, c: nat, p: nat)
    requires Here(s, c, p)
    ensures Does(v0, s, c, [Interrupt], Move(s, c, At(PreTest(s.pcP[p]))))
  {
    Nothing(v0, s, c);
    Then(v0, s, c, [], s, Interrupt, Move(s, c, At(PreTest(s.pcP[p]))));
    assert [] + [Interrupt] == [Interrupt];
  }

  lemma ReachesCheck(v0: int, s: State, c: nat, p: nat)
    requires Here(s, c, p) && s.pl == None && s.vetoP[p] == 0
    ensures Does(v0, s, c, [Interrupt] + Gos(3), Move(Holding(s, c, PL), c, At(PreCheck(s.pcP[p]))))
  {
    hide Run, Does, Step, Move, Holding;
    var u := s.pcP[p];
    Interrupts(v0, s, c, p);
    TestActs(v0, s, c, p, u);
    Acts(v0, s, c, [Interrupt], s, PreTest(u), Go, s, Incr(PL, PreCheck(u)));
    TakesNext(v0, s, c, [Interrupt] + [Go], s, PL, PreCheck(u));
    assert [Interrupt] + [Go] + Gos(2) == [Interrupt] + Gos(3);
  }

  /** An undisturbed interrupt makes a running process leave the CPU as runnable, to resume in the
      interrupt, if its veto count is zero and its time is up. */
  lemma Preempts(v0: int, s: State, c: nat, p: nat)
    requires AtHome(s, c, p) && s.pl == None && s.status[p] == Running && s.vetoP[p] == 0
    ensures Does(v0, s, c, [Interrupt] + Gos(6), Yielded(s, c, p, Runnable, At(PreBack(s.pcP[p]))))
  {
    hide Run, Does, Step, Move, Holding, Yielded, SetStatus;
    var u, h, cs := s.pcP[p], Holding(s, c, PL), [Interrupt] + Gos(3);
    HoldingElsewhere(s, c, PL, s.locked, s.status, s.wake);
    ReachesCheck(v0, s, c, p);
    CheckActs(v0, h, c, p, u);
    StateAct(v0, h, c, p, u);
    Acts(v0, s, c, cs, h, PreCheck(u), Go, h, At(PreState(u)));
    Acts(v0, s, c, cs + [Go], h, PreState(u), Go, SetStatus(h, p, Runnable), At(PreSwitch(u)));
    Yields1(v0, s, c, p, cs + [Go] + [Go], s, Runnable, PreSwitch(u), At(PreBack(u)));
    assert cs + [Go] + [Go] + [Go] == [Interrupt] + Gos(6);
  }

  /** Otherwise it changes nothing. */
  lemma PreemptsNot(v0: int, s: State, c: nat, p: nat)
    requires Here(s, c, p) && s.pl == None
    ensures s.vetoP[p] == 0 ==> Does(v0, s, c, [Interrupt] + Gos(3) + [Refuse] + Gos(3), s)
    ensures s.vetoP[p] != 0 ==> Does(v0, s, c, [Interrupt] + Gos(1), s)
  {
    hide Run, Does, Step, Move, Holding;
    var u, h, cs := s.pcP[p], Holding(s, c, PL), [Interrupt] + Gos(3);
    assert CurPc(s, c) == u;
    Stays(s, c);
    HoldingElsewhere(s, c, PL, s.locked, s.status, s.wake);
    TestActs(v0, s, c, p, u);
    if s.vetoP[p] == 0 {
      ReachesCheck(v0, s, c, p);
      CheckActs(v0, h, c, p, u);
      Acts(v0, s, c, cs, h, PreCheck(u), Refuse, h, Clear(PL, PreExit(u)));
      DropsNext(v0, s, c, cs + [Refuse], s, PL, PreExit(u));
      Acts(v0, s, c, cs + [Refuse] + Gos(2), s, PreExit(u), Go, s, u);
      assert cs + [Refuse] + Gos(2) + [Go] == [Interrupt] + Gos(3) + [Refuse] + Gos(3);
    } else {
      Interrupts(v0, s, c, p);
      Acts(v0, s, c, [Interrupt], s, PreTest(u), Go, s, u);
      assert [Interrupt] + [Go] == [Interrupt] + Gos(1);
    }
  }

  // ---------------------------------------------------------------- coming back to the CPU

  predicate Resumed(s: State, c: nat, p: nat, a: Act) {
    Here(s, c, p) && s.pcP[p] == At(a) && s.pl == Some(c)
  }

  /** The state after a resumed process has released Process_lock and is at pc. */
  function Released(s: State, p: nat, pc: Pc): State
    requires Shape(s) && p < |s.pcP|
  {
    s.(pl := None, vetoP := s.vetoP[p := s.vetoP[p] - 1], pcP := s.pcP[p := pc])
  }

  lemma LetsGo(v0: int, s: State, c: nat, p: nat, a: Act, k: Act)
    requires Resumed(s, c, p, a) && Step(v0, s, c, Go) == Move(s, c, Clear(PL, k))
    ensures Does(v0, s, c, Gos(3), Released(s, p, At(k)))
  {
    hide Run, Step;
    Nothing(v0, s, c);
    Then(v0, s, c, [], s, Go, Move(s, c, Clear(PL, k)));
    Drops(v0, s, c, PL, k);
    ThenAll(v0, s, c, [] + [Go], Move(s, c, Clear(PL, k)), Gos(2), Move(Freed(s, c, PL), c, At(k)));
    assert [] + [Go] + Gos(2) == Gos(3);
  }

  /** A process that enters for the first time goes to work, a preempted one returns to the point it was
      interrupted at, and both have let go of Process_lock. */
  lemma ResumesWork(v0: int, s: State, c: nat, p: nat, u: Pc)
    ensures Resumed(s, c, p, First) ==> Does(v0, s, c, Gos(3), Released(s, p, At(Work)))
    ensures Resumed(s, c, p, PreBack(u)) ==> Does(v0, s, c, Gos(4), Released(s, p, u))
  {
    hide Run, Does, Released;
    if Resumed(s, c, p, First) {
      LetsGo(v0, s, c, p, First, Work);
    }
    if Resumed(s, c, p, PreBack(u)) {
      LetsGo(v0, s, c, p, PreBack(u), PreExit(u));
      ExitsTo(v0, s, c, p, u);
      assert Gos(3) + [Go] == Gos(4);
    }
  }

  lemma ExitsTo(v0: int, s: State, c: nat, p: nat, u: Pc)
    requires Resumed(s, c, p, PreBack(u)) && Does(v0, s, c, Gos(3), Released(s, p, At(PreExit(u))))
    ensures Does(v0, s, c, Gos(3) + [Go], Released(s, p, u))
  {
    hide Run;
    var t := Released(s, p, At(PreExit(u)));
    assert s.pcP[p := At(PreExit(u))][p := u] == s.pcP[p := u];
    Then(v0, s, c, Gos(3), t, Go, Released(s, p, u));
  }

  /** A sleeper that has been woken and dispatched tries for the lock again from the start. */
  lemma TriesAgain(v0: int, s: State, c: nat, p: nat, l: nat)
    requires Resumed(s, c, p, SleepBack(l))
    ensures Does(v0, s, c, Gos(4), Released(s.(wake := s.wake[p := None]), p, Incr(AL(l), AcqTest(l))))
  {
    hide Run, Step, Does;
    var w := s.(wake := s.wake[p := None]);
    var t := Released(w, p, At(AcqAgain(l)));
    Nothing(v0, s, c);
    BackStep(v0, s, c, p, l);
    Then(v0, s, c, [], s, Go, Move(w, c, Clear(PL, AcqAgain(l))));
    Drops(v0, w, c, PL, AcqAgain(l));
    ThenAll(v0, s, c, [] + [Go], Move(w, c, Clear(PL, AcqAgain(l))), Gos(2), Move(Freed(w, c, PL), c, At(AcqAgain(l))));
    assert Move(Freed(w, c, PL), c, At(AcqAgain(l))) == t;
    assert s.pcP[p := At(AcqAgain(l))][p := Incr(AL(l), AcqTest(l))] == s.pcP[p := Incr(AL(l), AcqTest(l))];
    AcqAgainStep(v0, t, c, p, l);
    Then(v0, s, c, [] + [Go] + Gos(2), t, Go, Released(w, p, Incr(AL(l), AcqTest(l))));
    assert [] + [Go] + Gos(2) + [Go] == Gos(4);
  }

  lemma BackStep(v0: int, s: State, c: nat, p: nat, l: nat)
    requires Resumed(s, c, p, SleepBack(l))
    ensures Step(v0, s, c, Go) == Move(s.(wake := s.wake[p := None]), c, Clear(PL, AcqAgain(l)))
  {
  }

  lemma AcqAgainStep(v0: int, t: State, c: nat, p: nat, l: nat)
    requires Here(t, c, p) && t.pcP[p] == At(AcqAgain(l))
    ensures Step(v0, t, c, Go) == Move(t, c, Incr(AL(l), AcqTest(l)))
  {
  }

  // ---------------------------------------------------------------- fork

  /** Slot q ready for its first dispatch as a new process. */
  function Forked(v0: int, s: State, q: nat): State
    requires Shape(s) && q < |s.pcP|
  {
    s.(status := s.status[q := Runnable], pcP := s.pcP[q := At(First)], savedP := s.savedP[q := true], vetoP := s.vetoP[q := v0])
  }

  predicate LowestIdle(s: State, q: nat) {
    q < |s.status| && s.status[q] == Idle && forall j :: 0 <= j < q ==> s.status[j] != Idle
  }

  lemma {:induction false} FirstIdleIs(status: seq<Status>, i: nat, q: nat)
    requires i <= q < |status| && status[q] == Idle && forall j :: i <= j < q ==> status[j] != Idle
    ensures FirstIdle(status, i) == q
    decreases q - i
  {
    if i < q {
      FirstIdleIs(status, i + 1, q);
    }
  }

  lemma BookAct(v0: int, x: State, c: nat, p: nat, q: nat)
    requires Here(x, c, p) && LowestIdle(x, q)
    ensures Step(v0, Move(x, c, At(BookScan)), c, Go) == Move(SetStatus(x, q, Booked(p)), c, Clear(PL, ForkInit(q)))
  {
    hide Step, FirstIdle;
    FirstIdleIs(x.status, 0, q);
    StepAt(v0, x, c, p, BookScan, Go);
    MoveTwice(x, c, At(BookScan), Clear(PL, ForkInit(q)));
  }

  lemma InitAct(v0: int, x: State, c: nat, p: nat, q: nat)
    requires Here(x, c, p) && q < |x.pcP| && q != p
    ensures Step(v0, Move(x, c, At(ForkInit(q))), c, Refuse) == Move(x, c, Incr(PL, ForkUndo(q)))
    ensures Step(v0, Move(x, c, At(ForkInit(q))), c, Go) ==
      Move(x.(pcP := x.pcP[q := At(First)], savedP := x.savedP[q := true], vetoP := x.vetoP[q := v0]), c, Incr(PL, ForkPublish(q)))
  {
    hide Step;
    StepAt(v0, x, c, p, ForkInit(q), Refuse);
    StepAt(v0, x, c, p, ForkInit(q), Go);
    MoveTwice(x, c, At(ForkInit(q)), Incr(PL, ForkUndo(q)));
    assert x.pcP[p := At(ForkInit(q))][q := At(First)][p := Incr(PL, ForkPublish(q))] == x.pcP[q := At(First)][p := Incr(PL, ForkPublish(q))];
  }

  lemma SettleActs(v0: int, x: State, c: nat, p: nat, q: nat)
    requires Here(x, c, p) && q < |x.pcP|
    ensures Step(v0, Move(x, c, At(ForkPublish(q))), c, Go) == Move(SetStatus(x, q, Runnable), c, Clear(PL, Work))
    ensures Step(v0, Move(x, c, At(ForkUndo(q))), c, Go) == Move(SetStatus(x, q, Idle), c, Clear(PL, Work))
  {
    hide Step;
    StepAt(v0, x, c, p, ForkPublish(q), Go);
    StepAt(v0, x, c, p, ForkUndo(q), Go);
    MoveTwice(x, c, At(ForkPublish(q)), Clear(PL, Work));
    MoveTwice(x, c, At(ForkUndo(q)), Clear(PL, Work));
  }

  lemma BooksSlot(v0: int, s: State, c: nat, p: nat, q: nat)
    requires Works(s, c, p) && s.pl == None && LowestIdle(s, q)
    ensures Does(v0, s, c, [StartFork] + Gos(5), Move(SetStatus(s, q, Booked(p)), c, At(ForkInit(q))))
  {
    hide Run, Does, Step, Move, Holding;
    var h, b := Holding(s, c, PL), SetStatus(s, q, Booked(p));
    StartsOther(v0, s, c, p);
    HoldingElsewhere(s, c, PL, s.locked, b.status, s.wake);
    BookAct(v0, h, c, p, q);
    Enters(v0, s, c, p, StartFork, s, PL, BookScan);
    var cs := [StartFork] + Gos(2);
    Acts(v0, s, c, cs, h, BookScan, Go, Holding(b, c, PL), Clear(PL, ForkInit(q)));
    DropsNext(v0, s, c, cs + [Go], b, PL, ForkInit(q));
    assert cs + [Go] + Gos(2) == [StartFork] + Gos(5);
  }

  lemma Settles(v0: int, s: State, c: nat, p: nat, q: nat, choices: seq<Choice>, x: State, k: Act, st: Status)
    requires Here(x, c, p) && q < |x.pcP| && x.pl == None && Does(v0, s, c, choices, Move(x, c, Incr(PL, k)))
    requires (k == ForkPublish(q) && st == Runnable) || (k == ForkUndo(q) && st == Idle)
    ensures Does(v0, s, c, choices + Gos(5), Move(SetStatus(x, q, st), c, At(Work)))
  {
    hide Run, Does, Step, Move, Holding;
    var h, t := Holding(x, c, PL), SetStatus(x, q, st);
    HoldingElsewhere(x, c, PL, x.locked, t.status, x.wake);
    SettleActs(v0, h, c, p, q);
    TakesNext(v0, s, c, choices, x, PL, k);
    Acts(v0, s, c, choices + Gos(2), h, k, Go, Holding(t, c, PL), Clear(PL, Work));
    DropsNext(v0, s, c, choices + Gos(2) + [Go], t, PL, Work);
    assert choices + Gos(2) + [Go] + Gos(2) == choices + Gos(5);
  }

  /** An undisturbed Process_Fork makes the lowest idle slot a new process ready to be dispatched, or,
      if the process cannot be set up, changes nothing. */
  lemma Forks(v0: int, s: State, c: nat, p: nat, q: nat)
    requires Works(s, c, p) && s.pl == None && LowestIdle(s, q) && q != p
    ensures Does(v0, s, c, [StartFork] + Gos(11), Forked(v0, s, q))
    ensures Does(v0, s, c, [StartFork] + Gos(5) + [Refuse] + Gos(5), s)
  {
    hide Run, Does, Step, Move;
    var b, cs := SetStatus(s, q, Booked(p)), [StartFork] + Gos(5);
    var i := b.(pcP := b.pcP[q := At(First)], savedP := b.savedP[q := true], vetoP := b.vetoP[q := v0]);
    BooksSlot(v0, s, c, p, q);
    InitAct(v0, b, c, p, q);
    Acts(v0, s, c, cs, b, ForkInit(q), Go, i, Incr(PL, ForkPublish(q)));
    Settles(v0, s, c, p, q, cs + [Go], i, ForkPublish(q), Runnable);
    assert SetStatus(i, q, Runnable) == Forked(v0, s, q) by {
      assert b.status[q := Runnable] == s.status[q := Runnable];
    }
    assert CurPc(Forked(v0, s, q), c) == At(Work);
    Stays(Forked(v0, s, q), c);
    assert cs + [Go] + Gos(5) == [StartFork] + Gos(11);
    Acts(v0, s, c, cs, b, ForkInit(q), Refuse, b, Incr(PL, ForkUndo(q)));
    Settles(v0, s, c, p, q, cs + [Refuse], b, ForkUndo(q), Idle);
    assert SetStatus(b, q, Idle) == s by {
      assert b.status[q := Idle] == s.status;
    }
    assert CurPc(s, c) == At(Work);
    Stays(s, c);
  }

  lemma {:induction false} NoFirstIdle(status: seq<Status>, i: nat)
    requires i <= |status| && forall j :: i <= j < |status| ==> status[j] != Idle
    ensures FirstIdle(status, i) == |status|
    decreases |status| - i
  {
    if i < |status| {
      NoFirstIdle(status, i + 1);
    }
  }

  lemma SearchAct(v0: int, x: State, c: nat, p: nat)
    requires Here(x, c, p) && forall j :: 0 <= j < |x.status| ==> x.status[j] != Idle
    ensures Step(v0, Move(x, c, At(BookScan)), c, Go) == Move(x, c, Clear(PL, BookAgain))
  {
    hide Step, FirstIdle;
    NoFirstIdle(x.status, 0);
    StepAt(v0, x, c, p, BookScan, Go);
    MoveTwice(x, c, At(BookScan), Clear(PL, BookAgain));
  }

  lemma AgainAct(v0: int, x: State, c: nat, p: nat)
    requires Here(x, c, p)
    ensures Step(v0, Move(x, c, At(BookAgain)), c, Go) == Move(x, c, Incr(PL, BookScan))
  {
    hide Step;
    StepAt(v0, x, c, p, BookAgain, Go);
    MoveTwice(x, c, At(BookAgain), Incr(PL, BookScan));
  }

  /** While no slot is idle, Scheduler_Book lets go of Process_lock between its searches. */
  lemma SearchesAgain(v0: int, s: State, c: nat, p: nat)
    requires Works(s, c, p) && s.pl == None && forall j :: 0 <= j < |s.status| ==> s.status[j] != Idle
    ensures Does(v0, s, c, [StartFork] + Gos(6), Move(s, c, Incr(PL, BookScan)))
  {
    hide Run, Does, Step, Move, Holding;
    var h := Holding(s, c, PL);
    StartsOther(v0, s, c, p);
    HoldingElsewhere(s, c, PL, s.locked, s.status, s.wake);
    SearchAct(v0, h, c, p);
    AgainAct(v0, s, c, p);
    Enters(v0, s, c, p, StartFork, s, PL, BookScan);
    var cs := [StartFork] + Gos(2);
    Acts(v0, s, c, cs, h, BookScan, Go, h, Clear(PL, BookAgain));
    DropsNext(v0, s, c, cs + [Go], s, PL, BookAgain);
    Acts(v0, s, c, cs + [Go] + Gos(2), s, BookAgain, Go, s, Incr(PL, BookScan));
    assert cs + [Go] + Gos(2) + [Go] == [StartFork] + Gos(6);
  }
}

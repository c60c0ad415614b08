/** The loops of the scheduler over the process table, as the machine's single steps take them:
    both run under Process_lock. */
module Scheduler {
  import opened Options
  import opened Kernel

  class ProcessTable {
    const status: array<Status>
    const wake: array<Option<nat>>

    constructor (slots: nat)
      ensures Valid() && fresh(status) && fresh(wake) && status.Length == slots
      ensures forall i :: 0 <= i < slots ==> status[i] == Idle && wake[i] == None
    {
      status := new Status[slots](_ => Idle);
      wake := new Option<nat>[slots](_ => None);
    }

    ghost predicate Valid() {
      status.Length == wake.Length
    }

    /** Scheduler_RaiseAlarm wakes exactly the processes asleep on l. */
    method RaiseAlarm(l: nat)
      requires Valid()
      modifies status, wake
      ensures forall i :: 0 <= i < status.Length ==>
        if old(status[i]) == Asleep && old(wake[i]) == Some(l) then status[i] == Runnable && wake[i] == None
        else status[i] == old(status[i]) && wake[i] == old(wake[i])
      ensures (status[..], wake[..]) == Woken(old(status[..]), old(wake[..]), l)
    {
      ghost var woken := Woken(status[..], wake[..], l);
      for i := 0 to status.Length
        invariant forall j :: 0 <= j < i ==> status[j] == woken.0[j] && wake[j] == woken.1[j]
        invariant forall j :: i <= j < status.Length ==> status[j] == old(status[j]) && wake[j] == old(wake[j])
      {
        if status[i] == Asleep && wake[i] == Some(l) {
          status[i] := Runnable;
          wake[i] := None;
        }
      }
      assert status[..] == woken.0 && wake[..] == woken.1;
    }

    /** One pass of Scheduler_Book takes the first idle slot, if there is one. */
    method Book(booker: nat) returns (slot: Option<nat>)
      requires Valid()
      modifies status
      ensures slot.None? ==> status[..] == old(status[..]) && Idle !in old(status[..])
      ensures slot.Some? ==>
        && slot.value == FirstIdle(old(status[..]), 0) < status.Length
        && Idle !in old(status[..])[..slot.value]
        && status[..] == old(status[..])[slot.value := Booked(booker)]
    {
      slot := None;
      var i := 0;
      while i < status.Length
        invariant i <= status.Length
        invariant forall j :: 0 <= j < i ==> status[j] != Idle
        invariant status[..] == old(status[..]) && FirstIdle(status[..], 0) == FirstIdle(status[..], i)
      {
        if status[i] == Idle {
          status[i] := Booked(booker);
          slot := Some(i);
          return;
        }
        i := i + 1;
      }
    }
  }

  /** Raising an alarm twice, or two alarms in either order, has the effect of raising each once. */
  lemma AlarmsCommute(status: seq<Status>, wake: seq<Option<nat>>, l: nat, m: nat)
    requires |status| == |wake|
    ensures var a := Woken(status, wake, l); Woken(a.0, a.1, l) == a
    ensures var a, b := Woken(status, wake, l), Woken(status, wake, m); Woken(a.0, a.1, m) == Woken(b.0, b.1, l)
  {
    var a, b := Woken(status, wake, l), Woken(status, wake, m);
    assert Woken(a.0, a.1, l).0 == a.0 && Woken(a.0, a.1, l).1 == a.1;
    assert Woken(a.0, a.1, m).0 == Woken(b.0, b.1, l).0 && Woken(a.0, a.1, m).1 == Woken(b.0, b.1, l).1;
  }
}

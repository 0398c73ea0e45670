/** Whole-table runs built from the operations of ProcTable. */
module Scenarios {
  import opened ProcTypes
  import opened ProcTable

  /** Slots 2 and on are still UNUSED. */
  ghost predicate RestUnused(t: Table)
    reads t, t.procs
    requires t.procs.Length == NPROC
  {
    forall j :: 2 <= j < NPROC ==> t.procs[j].state == Unused
  }

  /** Boot under the default scheduler: init is created in slot 0 with pid 1
      and dispatched. */
  method Boot() returns (t: Table)
    ensures fresh(t) && fresh(t.procs) && t.Valid() && t.policy == Default && t.initproc == 0
    ensures t.nextpid == 2 && t.procs[0].state == Running && !t.procs[0].killed
    ensures t.procs[1].state == Unused && RestUnused(t)
  {
    t := new Table(Default);
    assert FirstUnusedAt(t.procs[..], 0);
    var init := t.UserInit();
    assert t.procs[0].state == Runnable;
    var sel := t.DefaultStep(0);
    assert sel == Some(0);
  }

  /** init forks: the child is pid 2 in slot 1, RUNNABLE, with init as its parent. */
  method ForkChild(t: Table) returns (child: int)
    requires t.Valid() && t.policy == Default && t.initproc == 0 && t.nextpid == 2
    requires t.procs[0].state == Running && !t.procs[0].killed && t.procs[1].state == Unused && RestUnused(t)
    modifies t.procs, t`nextpid
    ensures t.Valid() && child == 2 && t.procs[0].state == Running && !t.procs[0].killed
    ensures t.procs[1].state == Runnable && t.procs[1].parent == 0 && t.procs[1].pid == 2 && RestUnused(t)
  {
    assert FirstUnusedAt(t.procs[..], 1);
    child := t.Fork(0, true, true);
  }

  /** init yields, the child runs and exits with status 7, init runs again. */
  method ChildExits(t: Table)
    requires t.Valid() && t.policy == Default && t.initproc == 0
    requires t.procs[0].state == Running && t.procs[1].state == Runnable && t.procs[1].parent == 0
    requires t.procs[1].pid == 2 && RestUnused(t)
    modifies t.procs
    ensures t.Valid() && t.procs[0].state == Running
    ensures t.procs[1].state == Zombie && t.procs[1].parent == 0 && t.procs[1].pid == 2 && t.procs[1].xstate == 7
  {
    t.Yield(0);
    assert t.procs[1].state == Runnable;
    var sel := t.DefaultStep(1);
    assert sel == Some(1);
    t.Exit(1, 7);
    assert t.procs[0].state == Runnable;
    sel := t.DefaultStep(0);
    assert sel == Some(0);
  }

  /** init's wait reaps the child: pid 2 with status 7. */
  method ParentReaps(t: Table) returns (r: WaitOutcome, status: int)
    requires t.Valid() && t.procs[0].state == Running
    requires t.procs[1].state == Zombie && t.procs[1].parent == 0 && t.procs[1].pid == 2 && t.procs[1].xstate == 7
    modifies t.procs
    ensures r == Returned(2) && status == 7 && t.procs[1].state == Unused
  {
    assert t.procs[0].parent != 0 || t.procs[0].state != Zombie;
    assert FirstZombieChildAt(t.procs[..], 0, 1);
    r, status := t.Wait(0, 0, true);
  }

  /** The whole run: boot, fork, exit, reap. */
  method ForkExitWait() returns (child: int, r: WaitOutcome, status: int)
    ensures child == 2 && r == Returned(2) && status == 7
  {
    var t := Boot();
    child := ForkChild(t);
    ChildExits(t);
    r, status := ParentReaps(t);
  }

  /** A parent with a live child and nothing to reap sleeps on its own slot. */
  method WaitBlocks() returns (r: WaitOutcome)
    ensures r == WouldBlock
  {
    var t := Boot();
    var child := ForkChild(t);
    assert NoZombieChild(t.procs[..], 0) && t.procs[..][1].parent == 0;
    assert HasChild(t.procs[..], 0);
    var status;
    r, status := t.Wait(0, 0, true);
  }

  /** exit wakes a parent that sleeps in wait on its own slot. */
  method ExitWakesParent(t: Table)
    requires t.Valid() && t.initproc == 0
    requires t.procs[0].state == Sleeping && t.procs[0].chan == SlotChan(0)
    requires t.procs[1].state == Running && t.procs[1].parent == 0
    modifies t.procs
    ensures t.procs[0].state == Runnable && t.procs[1].state == Zombie
  {
    t.Exit(1, 0);
  }

  /** In a valid table the first UNUSED slot is also the first slot with pid 0. */
  lemma FirstUnusedHasPidZero(s: seq<Proc>, nextpid: int, f: nat)
    requires SlotsOk(s, nextpid) && FirstUnusedAt(s, f)
    ensures FirstPidAt(s, 0, f)
  {
  }

  /** kill's update leaves an UNUSED slot UNUSED. */
  lemma KilledStaysFirstUnused(s: seq<Proc>, f: nat)
    requires FirstUnusedAt(s, f)
    ensures FirstUnusedAt(s[f := KilledSlot(s[f])], f)
  {
  }

  /** kill(0) while a slot is free: freeproc and the zeroed table give every
      UNUSED slot pid 0, so kill's scan marks the first UNUSED slot killed
      (it stays UNUSED), and allocproc, which never clears `killed`, takes
      that same slot, so the next process created starts out killed. */
  method KillZeroInherited(t: Table) returns (r: int, k: Option<nat>)
    requires t.Valid() && !NoUnused(t.procs[..])
    modifies t.procs, t`nextpid
    ensures t.Valid() && r == 0
    ensures k.Some? && k.value < NPROC && t.procs[k.value].state == Used && t.procs[k.value].killed
  {
    var free := t.FirstUnused();
    var f := free.value;
    FirstUnusedHasPidZero(t.procs[..], t.nextpid, f);
    ghost var s0 := t.procs[..];
    r := t.Kill(0);
    assert t.procs[..] == s0[f := KilledSlot(s0[f])];
    KilledStaysFirstUnused(s0, f);
    ghost var s1 := t.procs[..];
    k := t.AllocProc(true);
    FirstUnusedUnique(s1, f);
    assert k == Some(f);
  }

  /** PBS boot: init is created in slot 0 and dispatched at tick 0, which
      sets its running marker to 0 and its sleeping interval to 0. */
  method PbsBoot() returns (t: Table, first: Option<nat>)
    ensures fresh(t) && fresh(t.procs) && t.Valid() && t.policy == Pbs && first == Some(0)
    ensures t.ticks == 0 && t.procs[0].state == Running
    ensures t.procs[0].runningTime == 0 && t.procs[0].sleepingTime == 0
    ensures t.procs[1].state == Unused && RestUnused(t)
  {
    t := new Table(Pbs);
    assert FirstUnusedAt(t.procs[..], 0);
    var init := t.UserInit();
    assert t.procs[0].state == Runnable && Pbs.IsFresh(t.procs[0]);
    assert AtMostOneRunnable(t.procs[..]);
    first := t.PbsStep();
  }

  /** Under PBS, init runs for one tick and yields. Its running and sleeping
      intervals sum to 0, so its dynamic priority is undefined; being the only
      RUNNABLE slot, it is still chosen and dispatched again, without any
      comparison. */
  method PbsInitRunsAlone() returns (first: Option<nat>, second: Option<nat>)
    ensures first == Some(0) && second == Some(0)
  {
    var t;
    t, first := PbsBoot();
    t.ClockTick();
    t.Yield(0);
    assert !Pbs.PriorityDefined(t.procs[0]);
    assert !PbsDefined(t.procs[..]);
    assert AtMostOneRunnable(t.procs[..]);
    second := t.PbsStep();
  }
}

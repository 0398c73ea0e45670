/** The process table of kernel/proc.c: the global `proc[NPROC]` array, the
    `nextpid` counter and `initproc`, with the operations that scan and update
    them. Every operation is one atomic step (the spinlocks are left out), and
    the calling process, `myproc()`, is passed as the slot index `cur`. */
module ProcTable {
  import opened ProcTypes
  import Pbs
  import Mlfq

  // ---- Table-order searches, stated on a snapshot of the table --------------

  ghost predicate NoUnused(s: seq<Proc>) {
    forall j :: 0 <= j < |s| ==> s[j].state != Unused
  }

  /** k is the first UNUSED slot in table order. */
  ghost predicate FirstUnusedAt(s: seq<Proc>, k: int) {
    0 <= k < |s| && s[k].state == Unused && forall j :: 0 <= j < k ==> s[j].state != Unused
  }

  lemma FirstUnusedUnique(s: seq<Proc>, k: int)
    requires FirstUnusedAt(s, k)
    ensures forall i :: FirstUnusedAt(s, i) ==> i == k
  {
  }

  ghost predicate NoPid(s: seq<Proc>, pid: int) {
    forall j :: 0 <= j < |s| ==> s[j].pid != pid
  }

  /** k is the first slot, in whatever state, whose pid is `pid`. */
  ghost predicate FirstPidAt(s: seq<Proc>, pid: int, k: int) {
    0 <= k < |s| && s[k].pid == pid && forall j :: 0 <= j < k ==> s[j].pid != pid
  }

  /** A slot whose priority set_priority may change: RUNNABLE or SLEEPING with that pid. */
  predicate IsPriorityTarget(p: Proc, pid: int) {
    (p.state == Runnable || p.state == Sleeping) && p.pid == pid
  }

  ghost predicate NoPriorityTarget(s: seq<Proc>, pid: int) {
    forall j :: 0 <= j < |s| ==> !IsPriorityTarget(s[j], pid)
  }

  ghost predicate FirstPriorityTargetAt(s: seq<Proc>, pid: int, k: int) {
    0 <= k < |s| && IsPriorityTarget(s[k], pid) && forall j :: 0 <= j < k ==> !IsPriorityTarget(s[j], pid)
  }

  ghost predicate HasChild(s: seq<Proc>, cur: int) {
    exists j :: 0 <= j < |s| && s[j].parent == cur
  }

  predicate IsZombieChild(p: Proc, cur: int) {
    p.parent == cur && p.state == Zombie
  }

  ghost predicate NoZombieChild(s: seq<Proc>, cur: int) {
    forall j :: 0 <= j < |s| ==> !IsZombieChild(s[j], cur)
  }

  /** k is the first ZOMBIE child of slot cur in table order. */
  ghost predicate FirstZombieChildAt(s: seq<Proc>, cur: int, k: int) {
    0 <= k < |s| && IsZombieChild(s[k], cur) && forall j :: 0 <= j < k ==> !IsZombieChild(s[j], cur)
  }

  lemma FirstPidUnique(s: seq<Proc>, pid: int, k: int)
    requires FirstPidAt(s, pid, k)
    ensures forall i :: FirstPidAt(s, pid, i) ==> i == k
  {
  }

  lemma FirstPriorityTargetUnique(s: seq<Proc>, pid: int, k: int)
    requires FirstPriorityTargetAt(s, pid, k)
    ensures forall i :: FirstPriorityTargetAt(s, pid, i) ==> i == k
  {
  }

  lemma FirstZombieChildUnique(s: seq<Proc>, cur: int, k: int)
    requires FirstZombieChildAt(s, cur, k)
    ensures forall i :: FirstZombieChildAt(s, cur, i) ==> i == k
  {
  }

  ghost predicate NoRunnable(s: seq<Proc>) {
    forall j :: 0 <= j < |s| ==> s[j].state != Runnable
  }

  /** Slot j after reparent(cur): a child of cur gets initproc as its parent,
      and if cur had any child at all, wakeup(initproc) has run. */
  function ReparentSlot(p: Proc, j: int, cur: int, init: int, anyChild: bool, ticks: nat, policy: Policy): Proc {
    var q := Reparented(p, cur, init);
    if anyChild then WakeupAt(q, j, ChanOf(init), cur, ticks, policy) else q
  }

  /** How many steps the round-robin cursor takes from slot a to slot b. */
  function CyclicDist(a: int, b: int): (d: nat)
    ensures d < NPROC
  {
    (b - a) % NPROC
  }

  /** The FCFS choice: k is RUNNABLE with the least start_time among RUNNABLE
      slots, and strictly less than that of every RUNNABLE slot before k. */
  ghost predicate FcfsChoice(s: seq<Proc>, k: int) {
    && 0 <= k < |s| && s[k].state == Runnable
    && (forall j :: 0 <= j < |s| && s[j].state == Runnable ==> s[k].startTime <= s[j].startTime)
    && (forall j :: 0 <= j < k && s[j].state == Runnable ==> s[k].startTime < s[j].startTime)
  }

  /** Every RUNNABLE slot has a defined dynamic priority. */
  ghost predicate PbsDefined(s: seq<Proc>) {
    forall j :: 0 <= j < |s| && s[j].state == Runnable ==> Pbs.PriorityDefined(s[j])
  }

  /** At most one slot is RUNNABLE. */
  ghost predicate AtMostOneRunnable(s: seq<Proc>) {
    forall i, j :: 0 <= i < |s| && 0 <= j < |s| && s[i].state == Runnable && s[j].state == Runnable ==> i == j
  }

  /** What PBS's scan needs to be defined: PcbCompare, and with it the
      division in PSBPriority, is reached only from the second RUNNABLE slot
      on, and then with every RUNNABLE slot as one of its operands. */
  ghost predicate PbsScanDefined(s: seq<Proc>) {
    AtMostOneRunnable(s) || PbsDefined(s)
  }

  /** The PBS choice: no RUNNABLE slot precedes k, and k strictly precedes
      every RUNNABLE slot before it in the table. */
  ghost predicate PbsChoice(s: seq<Proc>, k: int)
    requires PbsDefined(s)
  {
    && 0 <= k < |s| && s[k].state == Runnable
    && (forall j :: 0 <= j < |s| && s[j].state == Runnable ==> !Pbs.Precedes(s[j], s[k]))
    && (forall j :: 0 <= j < k && s[j].state == Runnable ==> Pbs.Precedes(s[k], s[j]))
  }

  /** The round-robin choice from cursor rr: the first RUNNABLE slot met
      going round the table from rr. */
  ghost predicate RoundRobinChoice(s: seq<Proc>, rr: int, k: int) {
    && 0 <= k < |s| && s[k].state == Runnable
    && forall j :: 0 <= j < |s| && s[j].state == Runnable ==> CyclicDist(rr, k) <= CyclicDist(rr, j)
  }

  lemma CursorNext(rr: nat, n: nat)
    requires rr < NPROC && n < NPROC
    ensures ((rr + n) % NPROC + 1) % NPROC == (rr + n + 1) % NPROC
  {
  }

  lemma CursorDist(rr: nat, n: nat)
    requires rr < NPROC && n < NPROC
    ensures CyclicDist(rr, (rr + n) % NPROC) == n
  {
  }

  // ---- The table invariant -------------------------------------------------

  /** Every parent is a slot or null, every MLFQ level indexes Max_wait, the
      pids of the live slots are distinct and lie in [1, nextpid), and an
      UNUSED slot has pid 0 (the zeroed table, and freeproc's `p->pid = 0`). */
  ghost predicate SlotsOk(s: seq<Proc>, nextpid: int) {
    && (forall i :: 0 <= i < |s| ==> -1 <= s[i].parent < NPROC && s[i].priorityNumber < 5)
    && (forall i :: 0 <= i < |s| && Live(s[i]) ==> 0 < s[i].pid < nextpid)
    && (forall i :: 0 <= i < |s| && !Live(s[i]) ==> s[i].pid == 0)
    && (forall i, j :: 0 <= i < |s| && 0 <= j < |s| && i != j && Live(s[i]) && Live(s[j]) ==> s[i].pid != s[j].pid)
  }

  /** q keeps p's pid and liveness and has an admissible parent and level. */
  predicate SameShape(p: Proc, q: Proc) {
    q.pid == p.pid && Live(q) == Live(p) && -1 <= q.parent < NPROC && q.priorityNumber < 5
  }

  lemma ShapePreserved(s: seq<Proc>, t: seq<Proc>, nextpid: int)
    requires SlotsOk(s, nextpid) && |t| == |s|
    requires forall i :: 0 <= i < |s| ==> SameShape(s[i], t[i])
    ensures SlotsOk(t, nextpid)
  {
  }

  /** Writing one slot keeps the invariant when the new value is admissible
      and, if live, carries a pid no other live slot has. */
  lemma UpdatePreserved(s: seq<Proc>, k: int, p: Proc, nextpid: int)
    requires SlotsOk(s, nextpid) && 0 <= k < |s|
    requires -1 <= p.parent < NPROC && p.priorityNumber < 5
    requires Live(p) ==> 0 < p.pid < nextpid
    requires !Live(p) ==> p.pid == 0
    requires Live(p) ==> forall j :: 0 <= j < |s| && j != k && Live(s[j]) ==> s[j].pid != p.pid
    ensures SlotsOk(s[k := p], nextpid)
  {
  }

  // ---- reparent's loop -------------------------------------------------------

  /** s is the table after reparent has looked at the slots before i of the
      original table o; `any` says whether one of them was a child of cur. */
  ghost predicate ReparentInv(s: seq<Proc>, o: seq<Proc>, i: int, any: bool, cur: int, init: int, ticks: nat, policy: Policy) {
    && |s| == |o| && 0 <= i <= |o|
    && (!any ==> forall j :: 0 <= j < |s| ==> s[j] == o[j])
    && (any ==> forall j :: 0 <= j < i ==>
          s[j] == WakeupAt(Reparented(o[j], cur, init), j, ChanOf(init), cur, ticks, policy))
    && (any ==> forall j :: i <= j < |s| ==> s[j] == WakeupAt(o[j], j, ChanOf(init), cur, ticks, policy))
  }

  /** A child at i is reparented and initproc woken: the invariant moves past i. */
  lemma ReparentStep(o: seq<Proc>, before: seq<Proc>, after: seq<Proc>, i: int, any: bool,
                     cur: int, init: int, ticks: nat, policy: Policy)
    requires ReparentInv(before, o, i, any, cur, init, ticks, policy) && i < |o|
    requires !any ==> forall j :: 0 <= j < i ==> o[j].parent != cur
    requires before[i].parent == cur && |after| == |o|
    requires forall j :: 0 <= j < |o| ==>
      after[j] == WakeupAt(before[i := before[i].(parent := init)][j], j, ChanOf(init), cur, ticks, policy)
    ensures ReparentInv(after, o, i + 1, true, cur, init, ticks, policy)
  {
    forall j | 0 <= j < |o|
      ensures j <= i ==> after[j] == WakeupAt(Reparented(o[j], cur, init), j, ChanOf(init), cur, ticks, policy)
      ensures i < j ==> after[j] == WakeupAt(o[j], j, ChanOf(init), cur, ticks, policy)
    {
      WakeupAtIdempotent(o[j], j, ChanOf(init), cur, ticks, policy, init);
      WakeupAtIdempotent(Reparented(o[j], cur, init), j, ChanOf(init), cur, ticks, policy, init);
    }
  }

  /** A slot that is no child of cur is left alone: the invariant moves past it. */
  lemma ReparentSkip(o: seq<Proc>, s: seq<Proc>, i: int, any: bool, cur: int, init: int, ticks: nat, policy: Policy)
    requires ReparentInv(s, o, i, any, cur, init, ticks, policy) && i < |o|
    requires s[i].parent != cur
    ensures o[i].parent != cur
    ensures ReparentInv(s, o, i + 1, any, cur, init, ticks, policy)
  {
  }

  /** One step of `wait`'s scan loop: either it returns a value or the caller
      went to sleep on its own slot and will scan again once woken. */
  datatype WaitOutcome = Returned(value: int) | WouldBlock

  class Table {
    const procs: array<Proc>
    /** The scheduler this kernel was built with. */
    const policy: Policy
    var nextpid: int
    /** The platform's tick counter; the table only reads it. */
    var ticks: nat
    /** The slot of the first user process, -1 before userinit. */
    var initproc: int

    ghost predicate Valid()
      reads this, procs
    {
      && procs.Length == NPROC
      && -1 <= initproc < NPROC
      && 1 <= nextpid
      && SlotsOk(procs[..], nextpid)
    }

    /** procinit and the static initialisers: every slot zeroed and UNUSED, nextpid 1. */
    constructor (policy: Policy)
      ensures Valid() && fresh(procs)
      ensures this.policy == policy && nextpid == 1 && ticks == 0 && initproc == -1
      ensures forall i :: 0 <= i < NPROC ==> procs[i] == EmptySlot
    {
      this.policy := policy;
      procs := new Proc[NPROC](_ => EmptySlot);
      nextpid := 1;
      ticks := 0;
      initproc := -1;
    }

    /** The platform timer's `ticks++` (kernel/trap.c, outside this model). */
    method ClockTick()
      requires Valid()
      modifies this`ticks
      ensures Valid() && ticks == old(ticks) + 1
    {
      ticks := ticks + 1;
    }

    // ---- Allocation -------------------------------------------------------

    method AllocPid() returns (pid: int)
      requires Valid()
      modifies this`nextpid
      ensures Valid()
      ensures pid == old(nextpid) && nextpid == old(nextpid) + 1
    {
      pid := nextpid;
      nextpid := nextpid + 1;
    }

    /** allocproc's scan for a free slot. */
    method FirstUnused() returns (k: Option<nat>)
      requires procs.Length == NPROC
      ensures k.None? <==> NoUnused(procs[..])
      ensures k.Some? ==> FirstUnusedAt(procs[..], k.value)
    {
      for i := 0 to NPROC
        invariant forall j :: 0 <= j < i ==> procs[j].state != Unused
      {
        if procs[i].state == Unused {
          return Some(i);
        }
      }
      return None;
    }

    /** allocproc. `memOk` says whether the trapframe page and the page table
        could be allocated; when they cannot, the slot is freed again but its
        pid is spent. */
    method AllocProc(memOk: bool) returns (k: Option<nat>)
      requires Valid()
      modifies procs, this`nextpid
      ensures Valid()
      ensures NoUnused(old(procs[..])) ==> k.None? && procs[..] == old(procs[..]) && nextpid == old(nextpid)
      ensures !NoUnused(old(procs[..])) ==> nextpid == old(nextpid) + 1 && (k.Some? <==> memOk)
      ensures k.Some? ==>
        && FirstUnusedAt(old(procs[..]), k.value)
        && procs[..] == old(procs[..])[k.value := Allocated(old(procs[k.value]), old(nextpid), ticks, policy)]
      ensures !memOk ==> forall i :: FirstUnusedAt(old(procs[..]), i) ==>
        procs[..] == old(procs[..])[i := Freed(old(procs[i]))]
    {
      var found := FirstUnused();
      if found.None? {
        return None;
      }
      var i := found.value;
      FirstUnusedUnique(procs[..], i);
      var orig := procs[i];
      var pid := AllocPid();
      UpdatePreserved(procs[..], i, orig.(pid := pid, state := Used), nextpid);
      procs[i] := orig.(pid := pid, state := Used);
      if !memOk {
        FreeProc(i);
        return None;
      }
      UpdatePreserved(procs[..], i, Allocated(orig, pid, ticks, policy), nextpid);
      procs[i] := Allocated(orig, pid, ticks, policy);
      k := Some(i);
    }

    /** freeproc: the slot becomes UNUSED with pid, parent, chan, killed and
        xstate cleared; the other fields keep their values. */
    method FreeProc(k: nat)
      requires Valid() && k < NPROC
      modifies procs
      ensures Valid()
      ensures procs[..] == old(procs[..])[k := Freed(old(procs[k]))]
    {
      procs[k] := Freed(procs[k]);
    }

    /** The table part of userinit: allocate the first process (the source
        does not handle failure here), remember it as initproc, make it RUNNABLE. */
    method UserInit() returns (k: nat)
      requires Valid() && !NoUnused(procs[..])
      modifies procs, this`nextpid, this`initproc
      ensures Valid()
      ensures FirstUnusedAt(old(procs[..]), k) && initproc == k && nextpid == old(nextpid) + 1
      ensures procs[..] == old(procs[..])[k := Allocated(old(procs[k]), old(nextpid), ticks, policy).(state := Runnable)]
    {
      ghost var s0 := procs[..];
      var slot := AllocProc(true);
      k := slot.value;
      FirstUnusedUnique(s0, k);
      UpdatePreserved(procs[..], k, procs[k].(state := Runnable), nextpid);
      initproc := k;
      procs[k] := procs[k].(state := Runnable);
    }

    /** The table part of fork run by slot cur. `memOk` is allocproc's memory,
        `copyOk` the copy of the parent's memory. Under MLFQ a parent below the
        top level clears its tick count and yields. */
    method Fork(cur: nat, memOk: bool, copyOk: bool) returns (pid: int)
      requires Valid() && cur < NPROC && procs[cur].state == Running
      modifies procs, this`nextpid
      ensures Valid()
      ensures NoUnused(old(procs[..])) ==> pid == -1 && procs[..] == old(procs[..]) && nextpid == old(nextpid)
      ensures forall i :: FirstUnusedAt(old(procs[..]), i) ==>
        && nextpid == old(nextpid) + 1
        && (!memOk ==> pid == -1 && procs[..] == old(procs[..])[i := Freed(old(procs[i]))])
        && (memOk && !copyOk ==>
              && pid == -1
              && procs[..] == old(procs[..])[i := Freed(Allocated(old(procs[i]), old(nextpid), ticks, policy))])
        && (memOk && copyOk ==>
              && pid == old(nextpid)
              && procs[i] == Allocated(old(procs[i]), old(nextpid), ticks, policy).(parent := cur, state := Runnable)
              && procs[cur] == (if policy == Mlfq && old(procs[cur]).priorityNumber != 0
                                then old(procs[cur]).(noOfTicks := 0, state := Runnable)
                                else old(procs[cur]))
              && forall j :: 0 <= j < NPROC && j != i && j != cur ==> procs[j] == old(procs[j]))
    {
      var np := AllocProc(memOk);
      if np.None? {
        return -1;
      }
      var i := np.value;
      FirstUnusedUnique(old(procs[..]), i);
      if !copyOk {
        FreeProc(i);
        return -1;
      }
      pid := procs[i].pid;
      ForkFinish(cur, i);
    }

    /** The end of a successful fork: the child gets its parent and becomes
        RUNNABLE; under MLFQ a parent below the top level clears its tick count and yields. */
    method ForkFinish(cur: nat, i: nat)
      requires Valid() && cur < NPROC && i < NPROC && cur != i
      requires procs[cur].state == Running && procs[i].state == Used
      modifies procs
      ensures Valid()
      ensures procs[i] == old(procs[i]).(parent := cur, state := Runnable)
      ensures procs[cur] == (if policy == Mlfq && old(procs[cur]).priorityNumber != 0
                             then old(procs[cur]).(noOfTicks := 0, state := Runnable)
                             else old(procs[cur]))
      ensures forall j :: 0 <= j < NPROC && j != i && j != cur ==> procs[j] == old(procs[j])
    {
      UpdatePreserved(procs[..], i, procs[i].(parent := cur, state := Runnable), nextpid);
      procs[i] := procs[i].(parent := cur, state := Runnable);
      if policy == Mlfq && procs[cur].priorityNumber != 0 {
        UpdatePreserved(procs[..], cur, procs[cur].(noOfTicks := 0), nextpid);
        procs[cur] := procs[cur].(noOfTicks := 0);
        Yield(cur);
      }
    }

    // ---- Teardown and reaping ---------------------------------------------

    /** reparent: every child of slot cur gets initproc as its parent, and
        wakeup(initproc) runs once per child, from cur. */
    method Reparent(cur: nat)
      requires Valid() && cur < NPROC
      modifies procs
      ensures Valid()
      ensures forall j :: 0 <= j < NPROC ==>
        procs[j] == ReparentSlot(old(procs[j]), j, cur, initproc, HasChild(old(procs[..]), cur), ticks, policy)
    {
      ghost var any := false;
      for i := 0 to NPROC
        invariant Valid()
        invariant any <==> exists j :: 0 <= j < i && old(procs[..])[j].parent == cur
        invariant ReparentInv(procs[..], old(procs[..]), i, any, cur, initproc, ticks, policy)
      {
        if procs[i].parent == cur {
          ghost var before := procs[..];
          UpdatePreserved(procs[..], i, procs[i].(parent := initproc), nextpid);
          procs[i] := procs[i].(parent := initproc);
          Wakeup(ChanOf(initproc), cur);
          ReparentStep(old(procs[..]), before, procs[..], i, any, cur, initproc, ticks, policy);
          any := true;
        } else {
          ReparentSkip(old(procs[..]), procs[..], i, any, cur, initproc, ticks, policy);
        }
      }
      assert forall j :: 0 <= j < NPROC ==> old(procs[..])[j] == old(procs[j]);
      assert forall j :: 0 <= j < NPROC ==> procs[..][j] == procs[j];
    }

    /** The table part of exit by slot cur: reparent its children, wake its
        parent, record the exit status and time and become ZOMBIE. */
    method Exit(cur: nat, status: int)
      requires Valid() && cur < NPROC && procs[cur].state == Running && cur != initproc
      modifies procs
      ensures Valid()
      ensures forall j :: 0 <= j < NPROC && old(procs[j]).parent == cur ==> procs[j].parent == initproc
      ensures procs[cur] == Reparented(old(procs[cur]), cur, initproc).(xstate := status, state := Zombie, etime := ticks)
      ensures forall j :: 0 <= j < NPROC && j != cur ==>
        procs[j] == WakeupAt(ReparentSlot(old(procs[j]), j, cur, initproc, HasChild(old(procs[..]), cur), ticks, policy),
                             j, ChanOf(Reparented(old(procs[cur]), cur, initproc).parent), cur, ticks, policy)
    {
      Reparent(cur);
      assert procs[cur] == Reparented(old(procs[cur]), cur, initproc);
      Wakeup(ChanOf(procs[cur].parent), cur);
      UpdatePreserved(procs[..], cur, procs[cur].(xstate := status, state := Zombie, etime := ticks), nextpid);
      procs[cur] := procs[cur].(xstate := status, state := Zombie, etime := ticks);
      forall j | 0 <= j < NPROC && old(procs[j]).parent == cur
        ensures procs[j].parent == initproc
      {
        if j != cur {
          assert ReparentSlot(old(procs[j]), j, cur, initproc, HasChild(old(procs[..]), cur), ticks, policy).parent == initproc;
        }
      }
    }

    /** wait's scan: the first ZOMBIE child of cur, and whether cur has children. */
    method ScanChildren(cur: int) returns (havekids: bool, zombie: Option<nat>)
      requires procs.Length == NPROC
      ensures zombie.Some? ==> havekids && FirstZombieChildAt(procs[..], cur, zombie.value)
      ensures zombie.None? ==> NoZombieChild(procs[..], cur) && (havekids <==> HasChild(procs[..], cur))
    {
      havekids := false;
      for i := 0 to NPROC
        invariant havekids <==> exists j :: 0 <= j < i && procs[j].parent == cur
        invariant forall j :: 0 <= j < i ==> !IsZombieChild(procs[j], cur)
      {
        if procs[i].parent == cur {
          havekids := true;
          if procs[i].state == Zombie {
            return havekids, Some(i);
          }
        }
      }
      zombie := None;
    }

    /** One pass of wait(addr) by slot cur. `copyoutOk` says whether copying
        the exit status to a non-zero `addr` succeeds; `status` is the value
        copied. With nothing to reap and children left, cur sleeps on its own
        slot and the pass reports WouldBlock. */
    method Wait(cur: nat, addr: int, copyoutOk: bool) returns (r: WaitOutcome, status: int)
      requires Valid() && cur < NPROC && procs[cur].state == Running
      modifies procs
      ensures Valid()
      ensures forall k :: FirstZombieChildAt(old(procs[..]), cur, k) ==>
        && status == old(procs[k]).xstate
        && (addr != 0 && !copyoutOk ==> r == Returned(-1) && procs[..] == old(procs[..]))
        && (addr == 0 || copyoutOk ==>
              r == Returned(old(procs[k]).pid) && procs[..] == old(procs[..])[k := Freed(old(procs[k]))])
      ensures NoZombieChild(old(procs[..]), cur) && (!HasChild(old(procs[..]), cur) || old(procs[cur]).killed)
        ==> r == Returned(-1) && procs[..] == old(procs[..])
      ensures NoZombieChild(old(procs[..]), cur) && HasChild(old(procs[..]), cur) && !old(procs[cur]).killed
        ==> r == WouldBlock && procs[..] == old(procs[..])[cur := Asleep(old(procs[cur]), SlotChan(cur), ticks, policy)]
    {
      var havekids, zombie := ScanChildren(cur);
      r, status := Reap(cur, havekids, zombie, addr, copyoutOk);
    }

    /** One pass of waitx(addr, &rtime, &wtime): wait that also reports the
        child's run time and its wait time etime - ctime - rtime, computed
        in |uint| arithmetic. */
    method Waitx(cur: nat, addr: int, copyoutOk: bool) returns (r: WaitOutcome, status: int, rtime: nat, wtime: nat)
      requires Valid() && cur < NPROC && procs[cur].state == Running
      modifies procs
      ensures Valid()
      ensures forall k :: FirstZombieChildAt(old(procs[..]), cur, k) ==>
        && status == old(procs[k]).xstate
        && rtime == old(procs[k]).rtime
        && wtime == (old(procs[k]).etime - old(procs[k]).ctime - old(procs[k]).rtime) % UINT_MOD
        && (addr != 0 && !copyoutOk ==> r == Returned(-1) && procs[..] == old(procs[..]))
        && (addr == 0 || copyoutOk ==>
              r == Returned(old(procs[k]).pid) && procs[..] == old(procs[..])[k := Freed(old(procs[k]))])
      ensures NoZombieChild(old(procs[..]), cur) && (!HasChild(old(procs[..]), cur) || old(procs[cur]).killed)
        ==> r == Returned(-1) && procs[..] == old(procs[..])
      ensures NoZombieChild(old(procs[..]), cur) && HasChild(old(procs[..]), cur) && !old(procs[cur]).killed
        ==> r == WouldBlock && procs[..] == old(procs[..])[cur := Asleep(old(procs[cur]), SlotChan(cur), ticks, policy)]
    {
      var havekids, zombie := ScanChildren(cur);
      rtime, wtime := 0, 0;
      if zombie.Some? {
        FirstZombieChildUnique(procs[..], cur, zombie.value);
        var c := procs[zombie.value];
        rtime := c.rtime;
        wtime := (c.etime - c.ctime - c.rtime) % UINT_MOD;
      }
      r, status := Reap(cur, havekids, zombie, addr, copyoutOk);
    }

    /** What wait and waitx do with the result of their scan. */
    method Reap(cur: nat, havekids: bool, zombie: Option<nat>, addr: int, copyoutOk: bool)
      returns (r: WaitOutcome, status: int)
      requires Valid() && cur < NPROC && procs[cur].state == Running
      requires zombie.Some? ==> havekids && FirstZombieChildAt(procs[..], cur, zombie.value)
      requires zombie.None? ==> NoZombieChild(procs[..], cur) && (havekids <==> HasChild(procs[..], cur))
      modifies procs
      ensures Valid()
      ensures forall k :: FirstZombieChildAt(old(procs[..]), cur, k) ==>
        && status == old(procs[k]).xstate
        && (addr != 0 && !copyoutOk ==> r == Returned(-1) && procs[..] == old(procs[..]))
        && (addr == 0 || copyoutOk ==>
              r == Returned(old(procs[k]).pid) && procs[..] == old(procs[..])[k := Freed(old(procs[k]))])
      ensures NoZombieChild(old(procs[..]), cur) && (!HasChild(old(procs[..]), cur) || old(procs[cur]).killed)
        ==> r == Returned(-1) && procs[..] == old(procs[..])
      ensures NoZombieChild(old(procs[..]), cur) && HasChild(old(procs[..]), cur) && !old(procs[cur]).killed
        ==> r == WouldBlock && procs[..] == old(procs[..])[cur := Asleep(old(procs[cur]), SlotChan(cur), ticks, policy)]
    {
      status := 0;
      if zombie.Some? {
        var k := zombie.value;
        FirstZombieChildUnique(procs[..], cur, k);
        var pid := procs[k].pid;
        status := procs[k].xstate;
        if addr != 0 && !copyoutOk {
          return Returned(-1), status;
        }
        FreeProc(k);
        return Returned(pid), status;
      }
      if !havekids || procs[cur].killed {
        return Returned(-1), status;
      }
      Sleep(cur, SlotChan(cur));
      r := WouldBlock;
    }

    // ---- Accounting --------------------------------------------------------

    /** update_time: one tick of run time for every RUNNING slot. */
    method UpdateTime()
      requires Valid()
      modifies procs
      ensures Valid()
      ensures forall i :: 0 <= i < NPROC ==>
        procs[i] == if old(procs[i]).state == Running then old(procs[i]).(rtime := old(procs[i]).rtime + 1) else old(procs[i])
    {
      for i := 0 to NPROC
        invariant forall j :: 0 <= j < i ==>
          procs[j] == if old(procs[j]).state == Running then old(procs[j]).(rtime := old(procs[j]).rtime + 1) else old(procs[j])
        invariant forall j :: i <= j < NPROC ==> procs[j] == old(procs[j])
      {
        if procs[i].state == Running {
          procs[i] := procs[i].(rtime := procs[i].rtime + 1);
        }
      }
      assert forall j :: 0 <= j < NPROC ==> SameShape(old(procs[..])[j], procs[..][j]);
      ShapePreserved(old(procs[..]), procs[..], nextpid);
    }

    // ---- Blocking ----------------------------------------------------------

    /** The going-to-sleep half of sleep(chan, lk) by slot cur. */
    method Sleep(cur: nat, chan: Chan)
      requires Valid() && cur < NPROC && procs[cur].state == Running
      modifies procs
      ensures Valid()
      ensures procs[..] == old(procs[..])[cur := Asleep(old(procs[cur]), chan, ticks, policy)]
    {
      procs[cur] := Asleep(procs[cur], chan, ticks, policy);
    }

    /** The tidy-up half of sleep, once slot cur runs again: its channel is cleared. */
    method FinishSleep(cur: nat)
      requires Valid() && cur < NPROC
      modifies procs
      ensures Valid()
      ensures procs[..] == old(procs[..])[cur := old(procs[cur]).(chan := NoChan)]
    {
      procs[cur] := procs[cur].(chan := NoChan);
    }

    /** wakeup(chan) run by slot cur (-1 when no process is current): every
        other slot SLEEPING on chan becomes RUNNABLE, and nothing else changes. */
    method Wakeup(chan: Chan, cur: int)
      requires Valid()
      modifies procs
      ensures Valid()
      ensures forall i :: 0 <= i < NPROC ==> procs[i] == WakeupAt(old(procs[i]), i, chan, cur, ticks, policy)
      ensures forall i :: 0 <= i < NPROC ==>
        (procs[i].state == Runnable && old(procs[i]).state != Runnable <==> WakesUp(old(procs[i]), i, chan, cur))
      ensures forall i :: 0 <= i < NPROC && !WakesUp(old(procs[i]), i, chan, cur) ==> procs[i] == old(procs[i])
    {
      for i := 0 to NPROC
        invariant forall j :: 0 <= j < i ==> procs[j] == WakeupAt(old(procs[j]), j, chan, cur, ticks, policy)
        invariant forall j :: i <= j < NPROC ==> procs[j] == old(procs[j])
      {
        if i != cur {
          if procs[i].state == Sleeping && procs[i].chan == chan {
            procs[i] := Woken(procs[i], ticks, policy);
          }
        }
      }
      assert forall j :: 0 <= j < NPROC ==> SameShape(old(procs[..])[j], procs[..][j]);
      ShapePreserved(old(procs[..]), procs[..], nextpid);
    }

    /** yield by slot cur: it becomes RUNNABLE (the switch to the scheduler is left out). */
    method Yield(cur: nat)
      requires Valid() && cur < NPROC && procs[cur].state == Running
      modifies procs
      ensures Valid()
      ensures procs[..] == old(procs[..])[cur := old(procs[cur]).(state := Runnable)]
    {
      procs[cur] := procs[cur].(state := Runnable);
    }

    // ---- Kill and priority ---------------------------------------------------

    /** kill's scan: the first slot with that pid, whatever its state. */
    method FindPid(pid: int) returns (k: Option<nat>)
      requires procs.Length == NPROC
      ensures k.None? <==> NoPid(procs[..], pid)
      ensures k.Some? ==> FirstPidAt(procs[..], pid, k.value)
    {
      for i := 0 to NPROC
        invariant forall j :: 0 <= j < i ==> procs[j].pid != pid
      {
        if procs[i].pid == pid {
          return Some(i);
        }
      }
      return None;
    }

    /** kill(pid): the first slot with that pid, ZOMBIE and UNUSED ones
        included, is marked killed and, if SLEEPING, made RUNNABLE. */
    method Kill(pid: int) returns (r: int)
      requires Valid()
      modifies procs
      ensures Valid()
      ensures r == 0 <==> !NoPid(old(procs[..]), pid)
      ensures r == -1 <==> NoPid(old(procs[..]), pid)
      ensures r == -1 ==> procs[..] == old(procs[..])
      ensures forall k :: FirstPidAt(old(procs[..]), pid, k) ==> procs[..] == old(procs[..])[k := KilledSlot(old(procs[k]))]
    {
      var found := FindPid(pid);
      if found.None? {
        return -1;
      }
      var k := found.value;
      FirstPidUnique(procs[..], pid, k);
      UpdatePreserved(procs[..], k, KilledSlot(procs[k]), nextpid);
      procs[k] := KilledSlot(procs[k]);
      return 0;
    }

    /** set_priority_i's scan. */
    method FindPriorityTarget(pid: int) returns (k: Option<nat>)
      requires procs.Length == NPROC
      ensures k.None? <==> NoPriorityTarget(procs[..], pid)
      ensures k.Some? ==> FirstPriorityTargetAt(procs[..], pid, k.value)
    {
      for i := 0 to NPROC
        invariant forall j :: 0 <= j < i ==> !IsPriorityTarget(procs[j], pid)
      {
        if IsPriorityTarget(procs[i], pid) {
          return Some(i);
        }
      }
      return None;
    }

    /** set_priority_i(priority, pid) called by slot cur. Returns 10 without
        PBS, 1 for a priority outside [0, 100], 2 when no RUNNABLE or SLEEPING
        slot has that pid, and otherwise the old static priority, after
        resetting the interval markers; the caller yields when the new value
        is numerically larger than the old one. */
    method SetPriority(priority: int, pid: int, cur: nat) returns (r: int)
      requires Valid() && cur < NPROC && procs[cur].state == Running
      modifies procs
      ensures Valid()
      ensures policy != Pbs ==> r == 10 && procs[..] == old(procs[..])
      ensures policy == Pbs && !(0 <= priority <= 100) ==> r == 1 && procs[..] == old(procs[..])
      ensures policy == Pbs && 0 <= priority <= 100 && NoPriorityTarget(old(procs[..]), pid)
        ==> r == 2 && procs[..] == old(procs[..])
      ensures policy == Pbs && 0 <= priority <= 100 ==> forall k :: FirstPriorityTargetAt(old(procs[..]), pid, k) ==>
        && r == old(procs[k]).staticPriority
        && procs[k] == old(procs[k]).(staticPriority := priority, runningTime := -1, sleepingTime := -1)
        && procs[cur] == (if priority > r then old(procs[cur]).(state := Runnable) else old(procs[cur]))
        && forall j :: 0 <= j < NPROC && j != k && j != cur ==> procs[j] == old(procs[j])
    {
      if policy != Pbs {
        return 10;
      }
      if priority < 0 || priority > 100 {
        return 1;
      }
      var found := FindPriorityTarget(pid);
      if found.None? {
        return 2;
      }
      var k := found.value;
      FirstPriorityTargetUnique(procs[..], pid, k);
      r := Reprioritise(k, priority, cur);
    }

    /** set_priority_i once its target slot k is found. */
    method Reprioritise(k: nat, priority: int, cur: nat) returns (r: int)
      requires Valid() && k < NPROC && cur < NPROC && k != cur && procs[cur].state == Running
      modifies procs
      ensures Valid()
      ensures r == old(procs[k]).staticPriority
      ensures procs[k] == old(procs[k]).(staticPriority := priority, runningTime := -1, sleepingTime := -1)
      ensures procs[cur] == (if priority > r then old(procs[cur]).(state := Runnable) else old(procs[cur]))
      ensures forall j :: 0 <= j < NPROC && j != k && j != cur ==> procs[j] == old(procs[j])
    {
      r := procs[k].staticPriority;
      UpdatePreserved(procs[..], k, procs[k].(staticPriority := priority, runningTime := -1, sleepingTime := -1), nextpid);
      procs[k] := procs[k].(staticPriority := priority, runningTime := -1, sleepingTime := -1);
      if priority > r {
        Yield(cur);
      }
    }

    // ---- Scheduling ----------------------------------------------------------

    /** The dispatch updates of the compiled scheduler for slot k. */
    method Dispatch(k: nat)
      requires Valid() && k < NPROC && procs[k].state == Runnable
      modifies procs
      ensures Valid()
      ensures procs[..] == old(procs[..])[k := Dispatched(old(procs[k]), ticks, policy)]
    {
      procs[k] := Dispatched(procs[k], ticks, policy);
    }

    /** DEFAULT's scan from table position `from`: the first RUNNABLE slot at
        or after it (from 0: the first RUNNABLE slot of the table). */
    method DefaultSelect(from: nat) returns (sel: Option<nat>)
      requires procs.Length == NPROC && from <= NPROC
      ensures sel.None? <==> forall j :: from <= j < NPROC ==> procs[j].state != Runnable
      ensures sel.Some? ==> from <= sel.value < NPROC && procs[sel.value].state == Runnable
      ensures sel.Some? ==> forall j :: from <= j < sel.value ==> procs[j].state != Runnable
    {
      for i := from to NPROC
        invariant forall j :: from <= j < i ==> procs[j].state != Runnable
      {
        if procs[i].state == Runnable {
          return Some(i);
        }
      }
      return None;
    }

    /** One DEFAULT selection and dispatch from table position `from`. */
    method DefaultStep(from: nat) returns (sel: Option<nat>)
      requires Valid() && policy == Default && from <= NPROC
      modifies procs
      ensures Valid()
      ensures sel.None? ==> (forall j :: from <= j < NPROC ==> old(procs[j]).state != Runnable) && procs[..] == old(procs[..])
      ensures sel.Some? ==>
        && from <= sel.value < NPROC && old(procs[sel.value]).state == Runnable
        && (forall j :: from <= j < sel.value ==> old(procs[j]).state != Runnable)
        && procs[..] == old(procs[..])[sel.value := old(procs[sel.value]).(state := Running)]
    {
      sel := DefaultSelect(from);
      if sel.Some? {
        Dispatch(sel.value);
      }
    }

    /** FCFS's scan, with First_start == -1 meaning that no RUNNABLE slot has
        been seen yet. */
    method FcfsSelect() returns (sel: Option<nat>)
      requires procs.Length == NPROC
      ensures sel.None? <==> NoRunnable(procs[..])
      ensures sel.Some? ==> FcfsChoice(procs[..], sel.value)
    {
      var firstStart := -1;
      var toBeScheduled: nat := 0;
      for i := 0 to NPROC
        invariant firstStart == -1 <==> forall j :: 0 <= j < i ==> procs[j].state != Runnable
        invariant firstStart != -1 ==>
          && toBeScheduled < i && procs[toBeScheduled].state == Runnable
          && procs[toBeScheduled].startTime == firstStart
          && (forall j :: 0 <= j < i && procs[j].state == Runnable ==> firstStart <= procs[j].startTime)
          && (forall j :: 0 <= j < toBeScheduled && procs[j].state == Runnable ==> firstStart < procs[j].startTime)
      {
        var p := procs[i];
        if p.state == Runnable {
          if firstStart == -1 {
            firstStart := p.startTime;
            toBeScheduled := i;
            continue;
          }
          if p.startTime < firstStart {
            firstStart := p.startTime;
            toBeScheduled := i;
            continue;
          }
        }
      }
      if firstStart == -1 {
        return None;
      }
      return Some(toBeScheduled);
    }

    /** One FCFS selection and dispatch. */
    method FcfsStep() returns (sel: Option<nat>)
      requires Valid() && policy == Fcfs
      modifies procs
      ensures Valid()
      ensures sel.None? ==> NoRunnable(old(procs[..])) && procs[..] == old(procs[..])
      ensures sel.Some? ==>
        && FcfsChoice(old(procs[..]), sel.value)
        && procs[..] == old(procs[..])[sel.value := old(procs[sel.value]).(state := Running)]
    {
      sel := FcfsSelect();
      if sel.Some? {
        Dispatch(sel.value);
      }
    }

    /** PBS's scan: the candidate is replaced only when PcbCompare(candidate, p) > 0.
        The first RUNNABLE slot is taken without a comparison, so a lone
        RUNNABLE slot is chosen whether or not its priority is defined. */
    method PbsSelect() returns (sel: Option<nat>)
      requires procs.Length == NPROC && PbsScanDefined(procs[..])
      ensures sel.None? <==> NoRunnable(procs[..])
      ensures sel.Some? ==> sel.value < NPROC && procs[sel.value].state == Runnable
      ensures sel.Some? && PbsDefined(procs[..]) ==> PbsChoice(procs[..], sel.value)
    {
      ghost var defined := PbsDefined(procs[..]);
      var initialized := false;
      var toBeScheduled: nat := 0;
      for i := 0 to NPROC
        invariant initialized <==> exists j :: 0 <= j < i && procs[j].state == Runnable
        invariant initialized ==> toBeScheduled < i && procs[toBeScheduled].state == Runnable
        invariant initialized && defined ==>
          && (forall j :: 0 <= j < i && procs[j].state == Runnable ==> !Pbs.Precedes(procs[j], procs[toBeScheduled]))
          && (forall j :: 0 <= j < toBeScheduled && procs[j].state == Runnable ==> Pbs.Precedes(procs[toBeScheduled], procs[j]))
      {
        assert procs[..][i] == procs[i];
        var p := procs[i];
        if p.state == Runnable {
          if !initialized {
            toBeScheduled := i;
            initialized := true;
            continue;
          }
          assert procs[..][toBeScheduled] == procs[toBeScheduled];
          assert !AtMostOneRunnable(procs[..]);
          assert defined;
          if Pbs.PcbCompare(procs[toBeScheduled], p) > 0 {
            forall j | 0 <= j < i && procs[j].state == Runnable
              ensures !Pbs.Precedes(procs[j], p) && Pbs.Precedes(p, procs[j])
            {
              assert procs[..][j] == procs[j];
              Pbs.PrecedesOrder(procs[j], procs[toBeScheduled], p);
              Pbs.PrecedesOrder(procs[toBeScheduled], procs[j], p);
            }
            toBeScheduled := i;
            continue;
          }
        }
      }
      if !initialized {
        return None;
      }
      return Some(toBeScheduled);
    }

    /** One PBS selection and dispatch: the chosen slot's dispatch count grows
        by one and its interval markers restart at this tick. */
    method PbsStep() returns (sel: Option<nat>)
      requires Valid() && policy == Pbs && PbsScanDefined(procs[..])
      modifies procs
      ensures Valid()
      ensures sel.None? ==> NoRunnable(old(procs[..])) && procs[..] == old(procs[..])
      ensures sel.Some? ==>
        && sel.value < NPROC && old(procs[sel.value]).state == Runnable
        && (PbsDefined(old(procs[..])) ==> PbsChoice(old(procs[..]), sel.value))
        && procs[..] == old(procs[..])[sel.value := old(procs[sel.value]).(
             state := Running, timesScheduled := old(procs[sel.value]).timesScheduled + 1,
             sleepingTime := 0, runningTime := ticks)]
    {
      sel := PbsSelect();
      if sel.Some? {
        Dispatch(sel.value);
      }
    }

    /** UpgradePolicy: every slot that ages out moves up exactly one level and
        is stamped with the current tick; all other slots are unchanged. */
    method UpgradePolicy()
      requires Valid()
      modifies procs
      ensures Valid()
      ensures forall i :: 0 <= i < NPROC ==> procs[i] == Mlfq.Upgraded(old(procs[i]), ticks)
      ensures forall i :: 0 <= i < NPROC && AgesOut(old(procs[i]), ticks) ==>
        procs[i].priorityNumber == old(procs[i]).priorityNumber - 1 && procs[i].timeAdded == ticks
      ensures forall i :: 0 <= i < NPROC && !AgesOut(old(procs[i]), ticks) ==> procs[i] == old(procs[i])
    {
      for i := 0 to NPROC
        invariant forall j :: 0 <= j < i ==> procs[j] == Mlfq.Upgraded(old(procs[j]), ticks)
        invariant forall j :: i <= j < NPROC ==> procs[j] == old(procs[j])
      {
        var p := procs[i];
        if p.state == Runnable && p.priorityNumber != 0 {
          if USub(ticks, p.timeAdded) > MaxWait(p.priorityNumber) {
            procs[i] := p.(timeAdded := ticks, priorityNumber := p.priorityNumber - 1);
          }
        }
      }
      assert forall j :: 0 <= j < NPROC ==> SameShape(old(procs[..])[j], procs[..][j]);
      ShapePreserved(old(procs[..]), procs[..], nextpid);
    }

    /** MLFQ's scan of one level, exactly as the fold Mlfq.LevelScan describes. */
    method MlfqLevelScan(level: nat) returns (acc: Mlfq.LevelAcc)
      requires procs.Length == NPROC
      ensures acc == Mlfq.LevelScan(procs[..], level)
    {
      var minimumTime: nat := 0;
      var toSchedule: nat := 0;
      for i := 0 to NPROC
        invariant Mlfq.LevelAcc(minimumTime, toSchedule) == Mlfq.LevelScan(procs[..i], level)
      {
        assert procs[..i + 1][..i] == procs[..i];
        var p := procs[i];
        if p.state == Runnable && p.priorityNumber == level {
          if minimumTime == 0 {
            minimumTime := p.timeAdded;
            toSchedule := i;
            continue;
          }
          if p.timeAdded < minimumTime {
            minimumTime := p.timeAdded;
            toSchedule := i;
          }
        }
      }
      assert procs[..NPROC] == procs[..];
      acc := Mlfq.LevelAcc(minimumTime, toSchedule);
    }

    /** MLFQ's round-robin fallback: one bounded pass round the table from the
        cursor rr (the source loops for ever when nothing is RUNNABLE). */
    method RoundRobin(rr: nat) returns (sel: Option<nat>, rr': nat)
      requires procs.Length == NPROC && rr < NPROC
      ensures rr' < NPROC
      ensures sel.None? <==> NoRunnable(procs[..])
      ensures sel.None? ==> rr' == rr
      ensures sel.Some? ==> RoundRobinChoice(procs[..], rr, sel.value) && rr' == (sel.value + 1) % NPROC
    {
      var cursor := rr;
      var n := 0;
      while n < NPROC
        invariant 0 <= n <= NPROC && cursor == (rr + n) % NPROC
        invariant forall j :: 0 <= j < NPROC && CyclicDist(rr, j) < n ==> procs[j].state != Runnable
      {
        CursorDist(rr, n);
        CursorNext(rr, n);
        if procs[cursor].state == Runnable {
          return Some(cursor), (cursor + 1) % NPROC;
        }
        cursor := (cursor + 1) % NPROC;
        n := n + 1;
      }
      return None, cursor;
    }

    /** One MLFQ selection from cursor rr: the first level 0..3 whose scan
        finds a slot, otherwise the round-robin fallback. */
    method MlfqSelect(rr: nat) returns (sel: Option<nat>, rr': nat)
      requires procs.Length == NPROC && rr < NPROC
      ensures rr' < NPROC
      ensures sel.None? <==> NoRunnable(procs[..])
      ensures sel.Some? ==> sel.value < NPROC && procs[sel.value].state == Runnable
      ensures Mlfq.LevelPick(procs[..], 0).Some? ==> sel == Mlfq.LevelPick(procs[..], 0) && rr' == rr
      ensures Mlfq.LevelPick(procs[..], 0).None? ==>
        && (sel.None? ==> rr' == rr)
        && (sel.Some? ==> RoundRobinChoice(procs[..], rr, sel.value) && rr' == (sel.value + 1) % NPROC)
    {
      Mlfq.LevelPickSound(procs[..], 0);
      for level := 0 to Mlfq.LEVELS
        invariant Mlfq.LevelPick(procs[..], 0) == Mlfq.LevelPick(procs[..], level)
      {
        var acc := MlfqLevelScan(level);
        if acc.minimum != 0 {
          return Some(acc.chosen), rr;
        }
      }
      sel, rr' := RoundRobin(rr);
    }

    /** One MLFQ scheduling step: aging, selection from cursor rr, and dispatch
        (the chosen slot's time_added is cleared and its dispatch count grows). */
    method MlfqStep(rr: nat) returns (sel: Option<nat>, rr': nat)
      requires Valid() && policy == Mlfq && rr < NPROC
      modifies procs
      ensures Valid() && rr' < NPROC
      ensures var up := Mlfq.UpgradeAll(old(procs[..]), ticks);
        && (sel.None? <==> NoRunnable(up))
        && (sel.None? ==> procs[..] == up && rr' == rr)
        && (Mlfq.LevelPick(up, 0).Some? ==> sel == Mlfq.LevelPick(up, 0) && rr' == rr)
        && (Mlfq.LevelPick(up, 0).None? && sel.Some? ==> RoundRobinChoice(up, rr, sel.value) && rr' == (sel.value + 1) % NPROC)
        && (sel.Some? ==> sel.value < NPROC && procs[..] == up[sel.value := up[sel.value].(
              state := Running, timeAdded := 0, noTimes := up[sel.value].noTimes + 1)])
    {
      UpgradePolicy();
      assert procs[..] == Mlfq.UpgradeAll(old(procs[..]), ticks);
      sel, rr' := MlfqSelect(rr);
      if sel.Some? {
        Dispatch(sel.value);
      }
    }
  }
}

/** Vocabulary of the xv6 process table (kernel/proc.c): slot states, wait
    channels, the per-slot record, the C integer operations the table code
    relies on, and the single-slot updates that the table operations apply. */
module ProcTypes {

  /** Number of slots in the table (NPROC of xv6's kernel/param.h). */
  const NPROC: nat := 64

  /** |uint| values are taken modulo this. */
  const UINT_MOD: nat := 0x1_0000_0000

  /** The scheduler compiled into the kernel (the DEFAULT, FCFS, PBS or MLFQ build flag). */
  datatype Policy = Default | Fcfs | Pbs | Mlfq

  datatype ProcState = Unused | Used | Sleeping | Runnable | Running | Zombie

  /** The opaque `void *chan` a process sleeps on: the null pointer, the address
      of process-table slot `slot` (what wait and exit sleep on and wake), or any
      other kernel address. */
  datatype Chan = NoChan | SlotChan(slot: nat) | Other(addr: nat)

  datatype Option<T> = None | Some(value: T)

  /** One `struct proc`, restricted to the fields the table operations read or
      write. `parent` is a slot index, -1 standing for the null pointer.
      startTime is used by FCFS and PBS; staticPriority .. sleepingTime by PBS;
      priorityNumber .. noTimes by MLFQ. */
  datatype Proc = Proc(
    pid: int,
    state: ProcState,
    parent: int,
    chan: Chan,
    killed: bool,
    xstate: int,
    ctime: nat,
    etime: nat,
    rtime: nat,
    startTime: nat,
    staticPriority: int,
    timesScheduled: nat,
    runningTime: int,
    sleepingTime: int,
    priorityNumber: nat,
    timeAdded: nat,
    noOfTicks: nat,
    noTimes: nat)

  /** A slot of the zero-initialised global `proc[NPROC]`. */
  const EmptySlot: Proc := Proc(0, Unused, -1, NoChan, false, 0, 0, 0, 0, 0, 0, 0, 0, 0, 0, 0, 0, 0)

  predicate Live(p: Proc) {
    p.state != Unused
  }

  /** The channel that is the address of slot `slot`, or null for -1. */
  function ChanOf(slot: int): Chan {
    if slot < 0 then NoChan else SlotChan(slot)
  }

  /** Unsigned 32-bit subtraction `a - b` on |uint| operands. */
  function USub(a: int, b: int): (r: nat)
    ensures r < UINT_MOD
    ensures (r - (a - b)) % UINT_MOD == 0
    ensures 0 <= a - b < UINT_MOD ==> r == a - b
  {
    (a - b) % UINT_MOD
  }

  function Abs(x: int): nat {
    if x < 0 then -x else x
  }

  /** C's integer division, which truncates toward zero (Dafny's `/` is
      Euclidean): the remainder `a - q * b` is smaller than the divisor in
      magnitude and is 0 or has the sign of the dividend. */
  function CDiv(a: int, b: int): (q: int)
    requires b != 0
    ensures var r := a - q * b; Abs(r) < Abs(b) && (r == 0 || (r < 0) == (a < 0))
    ensures a >= 0 && b > 0 ==> q == a / b
  {
    var m := Abs(a) / Abs(b);
    DivNonneg(Abs(a), Abs(b));
    CDivRemainder(a, b, m);
    if (a < 0) == (b < 0) then m else -m
  }

  /** The remainder of the truncating quotient, case by case on the signs. */
  lemma CDivRemainder(a: int, b: int, m: int)
    requires b != 0 && m == Abs(a) / Abs(b)
    ensures var q := if (a < 0) == (b < 0) then m else -m;
      var r := a - q * b; Abs(r) < Abs(b) && (r == 0 || (r < 0) == (a < 0))
  {
    var x: int, y: int := Abs(a), Abs(b);
    var rem := x % y;
    assert x == m * y + rem && 0 <= rem < y;
    NegMul(m, b);
    if a >= 0 && b > 0 {
      RemainderSameSign(a, b, m * b, rem);
    } else if a < 0 && b < 0 {
      RemainderSameSign(-a, -b, m * (-b), rem);
    } else if a >= 0 {
      RemainderSameSign(a, -b, m * (-b), rem);
    } else {
      RemainderSameSign(-a, b, m * b, rem);
    }
  }

  /** x = mb + rem with 0 <= rem < y: the remainder x - mb is rem. */
  lemma RemainderSameSign(x: int, y: int, mb: int, rem: int)
    requires x >= 0 && y > 0 && x == mb + rem && 0 <= rem < y
    ensures x - mb == rem && -x + mb == -rem
  {
  }

  lemma NegMul(x: int, y: int)
    ensures (-x) * y == -(x * y) && x * (-y) == -(x * y)
  {
  }
  lemma DivNonneg(x: int, y: int)
    requires x >= 0 && y > 0
    ensures x / y >= 0
  {
    var q := x / y;
    assert x == q * y + x % y && 0 <= x % y < y;
    if q < 0 {
      MulAtLeast(-1, q, y);
      assert false;
    }
  }

  lemma MulAtLeast(x: int, y: int, b: int)
    requires x >= y && b >= 0
    ensures x * b >= y * b
  {
  }

  /** `static const int Max_wait[5]` of UpgradePolicy: how long a RUNNABLE
      process may wait at a level before it is moved up one level. */
  function MaxWait(level: nat): int
    requires level < 5
  {
    [0, 10, 30, 100, 150][level]
  }

  // ---- Single-slot updates -------------------------------------------------

  /** The fields allocproc initialises once it has taken slot `p` for pid `pid`. */
  function Allocated(p: Proc, pid: int, ticks: nat, policy: Policy): Proc {
    var q := p.(pid := pid, state := Used, rtime := 0, etime := 0, ctime := ticks);
    match policy
    case Default => q
    case Fcfs => q.(startTime := ticks)
    case Pbs => q.(staticPriority := 60, timesScheduled := 0, startTime := ticks,
                   runningTime := -1, sleepingTime := -1)
    case Mlfq => q.(priorityNumber := 0, timeAdded := ticks, noOfTicks := 0, noTimes := 0)
  }

  /** What freeproc clears. */
  function Freed(p: Proc): Proc {
    p.(pid := 0, parent := -1, chan := NoChan, killed := false, xstate := 0, state := Unused)
  }

  /** The going-to-sleep half of sleep. */
  function Asleep(p: Proc, chan: Chan, ticks: nat, policy: Policy): Proc {
    var q := p.(chan := chan, state := Sleeping);
    if policy == Pbs then q.(runningTime := ticks - p.runningTime, sleepingTime := ticks) else q
  }

  /** Whether wakeup(chan), run by the process in slot cur (-1: none), wakes slot i. */
  predicate WakesUp(p: Proc, i: int, chan: Chan, cur: int) {
    i != cur && p.state == Sleeping && p.chan == chan
  }

  /** What wakeup does to a slot it wakes. */
  function Woken(p: Proc, ticks: nat, policy: Policy): Proc {
    var q := p.(state := Runnable);
    match policy
    case Pbs => q.(sleepingTime := ticks - p.sleepingTime)
    case Mlfq => q.(timeAdded := ticks, noOfTicks := 0)
    case _ => q
  }

  /** Slot i after wakeup(chan) run by slot cur. */
  function WakeupAt(p: Proc, i: int, chan: Chan, cur: int, ticks: nat, policy: Policy): (r: Proc)
    ensures r.pid == p.pid && r.parent == p.parent && r.chan == p.chan && r.killed == p.killed
    ensures r.xstate == p.xstate && r.priorityNumber == p.priorityNumber
    ensures WakesUp(p, i, chan, cur) ==> r.state == Runnable
    ensures !WakesUp(p, i, chan, cur) ==> r == p
  {
    if WakesUp(p, i, chan, cur) then Woken(p, ticks, policy) else p
  }

  /** The parent update of reparent for the exiting slot cur. */
  function Reparented(p: Proc, cur: int, init: int): Proc {
    if p.parent == cur then p.(parent := init) else p
  }

  /** kill's update of the victim slot. */
  function KilledSlot(p: Proc): Proc {
    p.(killed := true, state := if p.state == Sleeping then Runnable else p.state)
  }

  /** The dispatch updates of the scheduler compiled for `policy`. */
  function Dispatched(p: Proc, ticks: nat, policy: Policy): Proc {
    var q := p.(state := Running);
    match policy
    case Pbs => q.(timesScheduled := p.timesScheduled + 1, sleepingTime := 0, runningTime := ticks)
    case Mlfq => q.(timeAdded := 0, noTimes := p.noTimes + 1)
    case _ => q
  }

  /** Whether UpgradePolicy moves slot p up one level at time `ticks`. */
  predicate AgesOut(p: Proc, ticks: nat)
    requires p.priorityNumber < 5
  {
    p.state == Runnable && p.priorityNumber != 0 && USub(ticks, p.timeAdded) > MaxWait(p.priorityNumber)
  }

  // ---- Facts about the single-slot updates -----------------------------------

  /** A second wakeup on the same channel changes nothing, and wakeup commutes
      with reparent's change of the parent field. */
  lemma WakeupAtIdempotent(p: Proc, i: int, chan: Chan, cur: int, ticks: nat, policy: Policy, v: int)
    ensures WakeupAt(WakeupAt(p, i, chan, cur, ticks, policy), i, chan, cur, ticks, policy)
         == WakeupAt(p, i, chan, cur, ticks, policy)
    ensures WakeupAt(p.(parent := v), i, chan, cur, ticks, policy)
         == WakeupAt(p, i, chan, cur, ticks, policy).(parent := v)
  {
  }
}

/** The priority-based scheduler's pure rules (kernel/proc.c, PBS build):
    the dynamic priority PSBPriority and the dispatch order PcbCompare. */
module Pbs {
  import opened ProcTypes

  /** A process that has neither run nor slept since it was allocated or had
      its priority set: both interval markers are -1. */
  predicate IsFresh(p: Proc) {
    p.sleepingTime == -1 && p.runningTime == -1
  }

  /** The niceness quotient exists: C leaves a division by zero undefined, so
      the model gives PSBPriority no value when the two intervals sum to zero
      for a process that is not fresh. */
  predicate PriorityDefined(p: Proc) {
    IsFresh(p) || p.runningTime + p.sleepingTime != 0
  }

  /** Niceness: 5 for a fresh process, otherwise ten times the share of the
      last interval spent sleeping, with C's truncating division. */
  function Niceness(p: Proc): int
    requires PriorityDefined(p)
  {
    if IsFresh(p) then 5 else CDiv(p.sleepingTime * 10, p.runningTime + p.sleepingTime)
  }

  /** The dynamic priority: static priority minus niceness plus 5, clamped to
      [0, 100]. Lower is more urgent. */
  function PSBPriority(p: Proc): (r: int)
    requires PriorityDefined(p)
    ensures 0 <= r <= 100
    ensures IsFresh(p) && 0 <= p.staticPriority <= 100 ==> r == p.staticPriority
  {
    var value := p.staticPriority - Niceness(p) + 5;
    if value > 100 then 100 else if value < 0 then 0 else value
  }

  /** For intervals that really are tick counts, niceness lies in [0, 10]:
      0 when the process did not sleep, 10 when it did not run. */
  lemma NicenessBounds(p: Proc)
    requires !IsFresh(p)
    requires p.runningTime >= 0 && p.sleepingTime >= 0 && p.runningTime + p.sleepingTime > 0
    ensures 0 <= Niceness(p) <= 10
    ensures p.sleepingTime == 0 ==> Niceness(p) == 0
    ensures p.runningTime == 0 ==> Niceness(p) == 10
  {
    QuotientBounds(p.sleepingTime, p.runningTime);
  }

  lemma QuotientBounds(s: int, r: int)
    requires s >= 0 && r >= 0 && r + s > 0
    ensures 0 <= (s * 10) / (r + s) <= 10
    ensures s == 0 ==> (s * 10) / (r + s) == 0
    ensures r == 0 ==> (s * 10) / (r + s) == 10
  {
    var a, b := s * 10, r + s;
    var q := a / b;
    assert a == q * b + a % b && 0 <= a % b < b;
    if q > 10 {
      MulAtLeast(q, 11, b);
      assert false;
    }
    if q < 0 {
      MulAtLeast(0, q + 1, b);
      assert false;
    }
    if r == 0 && q < 10 {
      MulAtLeast(10, q + 1, b);
      assert false;
    }
  }

  /** With tick-count intervals and an in-range static priority the dynamic
      priority never strays more than 5 from the static one. */
  lemma DynamicPriorityWindow(p: Proc)
    requires PriorityDefined(p)
    requires 0 <= p.staticPriority <= 100
    requires IsFresh(p) || (p.runningTime >= 0 && p.sleepingTime >= 0)
    ensures p.staticPriority - 5 <= PSBPriority(p) <= p.staticPriority + 5
  {
    if !IsFresh(p) {
      NicenessBounds(p);
    }
  }

  /** Two worked figures: a fresh process at static priority 60 runs at 60;
      one that slept 80 and ran 20 ticks has niceness 80 * 10 / 100 = 8 and
      runs at 60 - 8 + 5 = 57. */
  lemma PsbPriorityExamples(p: Proc)
    requires p.staticPriority == 60
    ensures IsFresh(p) ==> PSBPriority(p) == 60
    ensures p.sleepingTime == 80 && p.runningTime == 20 ==> Niceness(p) == 8 && PSBPriority(p) == 57
  {
  }

  /** p is dispatched before q: lower dynamic priority, then fewer times
      scheduled, then earlier start time. */
  predicate Precedes(p: Proc, q: Proc)
    requires PriorityDefined(p) && PriorityDefined(q)
  {
    var a, b := PSBPriority(p), PSBPriority(q);
    a < b || (a == b && (p.timesScheduled < q.timesScheduled
                         || (p.timesScheduled == q.timesScheduled && p.startTime < q.startTime)))
  }

  /** p and q agree on every key PcbCompare looks at. */
  predicate SameKey(p: Proc, q: Proc)
    requires PriorityDefined(p) && PriorityDefined(q)
  {
    PSBPriority(p) == PSBPriority(q) && p.timesScheduled == q.timesScheduled && p.startTime == q.startTime
  }

  /** PcbCompare is positive exactly when q is to be dispatched before p, and
      -1 otherwise, a full tie included. */
  function PcbCompare(p: Proc, q: Proc): (r: int)
    requires PriorityDefined(p) && PriorityDefined(q)
    ensures r == 1 || r == -1
    ensures r > 0 <==> Precedes(q, p)
    ensures SameKey(p, q) ==> r == -1
  {
    var pp, qp := PSBPriority(p), PSBPriority(q);
    if pp < qp then -1
    else if pp > qp then 1
    else if p.timesScheduled > q.timesScheduled then 1
    else if q.timesScheduled > p.timesScheduled then -1
    else if p.startTime < q.startTime then -1
    else if q.startTime < p.startTime then 1
    else -1
  }

  /** Precedes is a strict order, and two processes neither of which precedes
      the other have the same key. */
  lemma PrecedesOrder(p: Proc, q: Proc, r: Proc)
    requires PriorityDefined(p) && PriorityDefined(q) && PriorityDefined(r)
    ensures !Precedes(p, p)
    ensures Precedes(p, q) && Precedes(q, r) ==> Precedes(p, r)
    ensures !Precedes(q, p) && Precedes(r, p) ==> Precedes(r, q)
    ensures !Precedes(p, q) && !Precedes(q, p) ==> SameKey(p, q)
  {
  }
}

/** The multi-level feedback queue's selection rules (kernel/proc.c, MLFQ
    build): aging by UpgradePolicy, and the level scan, which takes
    `minimum_time == 0` to mean that nothing has been found at a level. */
module Mlfq {
  import opened ProcTypes

  /** The level scan looks at levels 0 to 3 (`for(int i = 0; i < 4; i++)`). */
  const LEVELS: nat := 4

  /** UpgradePolicy's update of one slot: a slot that ages out moves up one
      level and is stamped with the current time. */
  function Upgraded(p: Proc, ticks: nat): Proc
    requires p.priorityNumber < 5
  {
    if AgesOut(p, ticks) then p.(timeAdded := ticks, priorityNumber := p.priorityNumber - 1) else p
  }

  /** The table after one UpgradePolicy pass. */
  function UpgradeAll(s: seq<Proc>, ticks: nat): seq<Proc>
    requires forall i :: 0 <= i < |s| ==> s[i].priorityNumber < 5
  {
    seq(|s|, i requires 0 <= i < |s| => Upgraded(s[i], ticks))
  }

  /** A slot the level scan of level `level` considers. */
  predicate IsCandidate(p: Proc, level: nat) {
    p.state == Runnable && p.priorityNumber == level
  }

  /** The level scan's running state: `minimum_time` (0: nothing found) and
      `toSchedule` (meaningless while minimum is 0). */
  datatype LevelAcc = LevelAcc(minimum: nat, chosen: nat)

  /** One pass of the level scan's inner loop body over slot i. */
  function LevelStep(acc: LevelAcc, p: Proc, i: nat, level: nat): LevelAcc {
    if IsCandidate(p, level) && (acc.minimum == 0 || p.timeAdded < acc.minimum)
    then LevelAcc(p.timeAdded, i)
    else acc
  }

  /** The level scan over the table (prefix) s, slot by slot in table order. */
  function LevelScan(s: seq<Proc>, level: nat): LevelAcc
    decreases |s|
  {
    if s == [] then LevelAcc(0, 0)
    else LevelStep(LevelScan(s[..|s| - 1], level), s[|s| - 1], |s| - 1, level)
  }

  /** Candidate j is not followed by a candidate whose time_added is 0. */
  ghost predicate Visible(s: seq<Proc>, level: nat, j: nat)
    requires j < |s|
  {
    IsCandidate(s[j], level) && s[j].timeAdded != 0
    && forall k :: j < k < |s| && IsCandidate(s[k], level) ==> s[k].timeAdded != 0
  }

  /** When the scan reports a find, the chosen slot is a candidate whose
      time_added is the (non-zero) minimum, and no later candidate has an
      earlier time_added. In particular a slot with time_added 0 is never chosen. */
  lemma {:induction false} LevelScanFound(s: seq<Proc>, level: nat)
    ensures var acc := LevelScan(s, level);
      acc.minimum != 0 ==>
        && acc.chosen < |s| && IsCandidate(s[acc.chosen], level)
        && s[acc.chosen].timeAdded == acc.minimum
        && forall j :: acc.chosen < j < |s| && IsCandidate(s[j], level) ==> acc.minimum <= s[j].timeAdded
  {
    if s != [] {
      var t := s[..|s| - 1];
      LevelScanFound(t, level);
      var prev := LevelScan(t, level);
      if LevelScan(s, level) == prev && prev.minimum != 0 {
        assert forall j :: prev.chosen < j < |t| ==> s[j] == t[j];
      }
    }
  }

  /** The scan finds something at a level exactly when some candidate there is
      visible: a candidate with time_added 0 hides every candidate before it. */
  lemma {:induction false} LevelScanExact(s: seq<Proc>, level: nat)
    ensures LevelScan(s, level).minimum != 0 <==> exists j :: 0 <= j < |s| && Visible(s, level, j)
  {
    var acc := LevelScan(s, level);
    LevelScanFound(s, level);
    if acc.minimum != 0 {
      assert Visible(s, level, acc.chosen);
    }
    if j :| 0 <= j < |s| && Visible(s, level, j) {
      VisibleFound(s, level, j);
    }
  }

  lemma {:induction false} VisibleFound(s: seq<Proc>, level: nat, j: nat)
    requires j < |s| && Visible(s, level, j)
    ensures LevelScan(s, level).minimum != 0
  {
    var t := s[..|s| - 1];
    if j < |s| - 1 {
      assert forall k :: j < k < |t| ==> t[k] == s[k];
      assert Visible(t, level, j);
      VisibleFound(t, level, j);
    }
  }

  /** Without candidates whose time_added is 0, the scan finds something
      exactly when there is a candidate, and it chooses the candidate with
      the earliest time_added, the first in table order among ties. */
  lemma {:induction false} LevelScanNoZero(s: seq<Proc>, level: nat)
    requires forall j :: 0 <= j < |s| && IsCandidate(s[j], level) ==> s[j].timeAdded != 0
    ensures var acc := LevelScan(s, level);
      && (acc.minimum != 0 <==> exists j :: 0 <= j < |s| && IsCandidate(s[j], level))
      && (acc.minimum != 0 ==>
            && acc.chosen < |s| && IsCandidate(s[acc.chosen], level)
            && (forall j :: 0 <= j < |s| && IsCandidate(s[j], level) ==> s[acc.chosen].timeAdded <= s[j].timeAdded)
            && (forall j :: 0 <= j < acc.chosen && IsCandidate(s[j], level) ==> s[acc.chosen].timeAdded < s[j].timeAdded))
  {
    if s != [] {
      var t := s[..|s| - 1];
      assert forall j :: 0 <= j < |t| ==> t[j] == s[j];
      LevelScanNoZero(t, level);
      LevelScanFound(t, level);
      var prev := LevelScan(t, level);
      if prev.minimum != 0 {
        assert IsCandidate(s[prev.chosen], level);
      }
      if IsCandidate(s[|s| - 1], level) {
        if prev.minimum == 0 {
          assert forall j :: 0 <= j < |t| ==> !IsCandidate(s[j], level);
        } else if s[|s| - 1].timeAdded < prev.minimum {
          assert LevelScan(s, level) == LevelAcc(s[|s| - 1].timeAdded, |s| - 1);
        } else {
          assert LevelScan(s, level) == prev;
        }
      }
    }
  }

  /** The sentinel at work: when the last candidate of a level in table
      order has time_added 0, the level looks empty, whatever candidates
      come before it. */
  lemma {:induction false} ZeroTimeHides(s: seq<Proc>, level: nat, j: nat)
    requires j < |s| && IsCandidate(s[j], level) && s[j].timeAdded == 0
    requires forall k :: j < k < |s| ==> !IsCandidate(s[k], level)
    ensures LevelScan(s, level).minimum == 0
  {
    LevelScanExact(s, level);
  }

  /** The level-scan part of one MLFQ selection: the first level from `from`
      on, below LEVELS, at which the scan finds a slot. */
  function LevelPick(s: seq<Proc>, from: nat): Option<nat>
    decreases LEVELS - from
  {
    if from >= LEVELS then None
    else
      var acc := LevelScan(s, from);
      if acc.minimum != 0 then Some(acc.chosen) else LevelPick(s, from + 1)
  }

  /** A level pick is a RUNNABLE slot at a level in [from, LEVELS) whose
      time_added is not 0, and the scans of all the levels before it found nothing. */
  lemma {:induction false} LevelPickSound(s: seq<Proc>, from: nat)
    ensures match LevelPick(s, from)
      case None => forall l :: from <= l < LEVELS ==> LevelScan(s, l).minimum == 0
      case Some(k) =>
        && k < |s| && s[k].state == Runnable && from <= s[k].priorityNumber < LEVELS
        && s[k].timeAdded != 0
        && LevelScan(s, s[k].priorityNumber).chosen == k
        && forall l :: from <= l < s[k].priorityNumber ==> LevelScan(s, l).minimum == 0
    decreases LEVELS - from
  {
    if from < LEVELS {
      LevelScanFound(s, from);
      if LevelScan(s, from).minimum == 0 {
        LevelPickSound(s, from + 1);
      }
    }
  }

  /** When no RUNNABLE slot at levels below LEVELS has time_added 0, the pick
      is a slot at the most urgent level that has a RUNNABLE slot, with the
      earliest time_added at that level, the first in table order among ties;
      and something is picked whenever such a slot exists. */
  lemma {:induction false} LevelPickNoZero(s: seq<Proc>, from: nat)
    requires forall j :: 0 <= j < |s| && s[j].state == Runnable && s[j].priorityNumber < LEVELS ==> s[j].timeAdded != 0
    ensures LevelPick(s, from).Some? <==>
      exists j :: 0 <= j < |s| && s[j].state == Runnable && from <= s[j].priorityNumber < LEVELS
    ensures match LevelPick(s, from)
      case None => true
      case Some(k) =>
        && k < |s| && s[k].state == Runnable && from <= s[k].priorityNumber < LEVELS
        && forall j :: 0 <= j < |s| && s[j].state == Runnable && from <= s[j].priorityNumber ==>
             && s[k].priorityNumber <= s[j].priorityNumber
             && (s[j].priorityNumber == s[k].priorityNumber ==>
                   && s[k].timeAdded <= s[j].timeAdded
                   && (j < k ==> s[k].timeAdded < s[j].timeAdded))
    decreases LEVELS - from
  {
    if from < LEVELS {
      LevelScanNoZero(s, from);
      if LevelScan(s, from).minimum == 0 {
        LevelPickNoZero(s, from + 1);
        assert forall j :: 0 <= j < |s| && s[j].state == Runnable && s[j].priorityNumber == from ==> IsCandidate(s[j], from);
      }
    }
  }
}

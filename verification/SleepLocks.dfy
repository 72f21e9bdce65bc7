/**
Sleeping locks, for any number of processes: acquiresleep and releasesleep over a spinlock and
sleep and wakeup.  At most one process is between the two, and nobody sleeps on a lock that is
free to take.
*/
module SleepLocks {
  import opened Prelude

  datatype Pc =
    | Outside    // has no part in the lock
    | Enter      // acquire(&lk->lk), at the start or at the end of sleep
    | Test       // while(lk->locked), holding the spinlock
    | Sleep      // sleep: acquire(&ptable.lock)
    | Release    // sleep: release(lk), holding both
    | Doze       // about to set SLEEPING, holding the table lock
    | Asleep     // SLEEPING
    | Ready      // RUNNABLE again
    | Resume     // scheduled, holding the table lock
    | Taken      // has set locked and pid; release(&lk->lk)
    | Inside     // acquiresleep has returned
    | Back       // releasesleep: acquire(&lk->lk)
    | Clear      // about to clear locked, holding the spinlock
    | Wake       // wakeup(lk): about to take the table lock
    | Waking     // the same, holding both
    | Leave      // release(&lk->lk)

  /** `owner` is the pid field while locked is set. */
  datatype System = System(pcs: seq<Pc>, spin: Option<nat>, table: Option<nat>, owner: Option<nat>)

  predicate HoldsSpin(pc: Pc) {
    pc in {Test, Sleep, Release, Taken, Clear, Wake, Waking, Leave}
  }

  predicate HoldsTable(pc: Pc) {
    pc in {Release, Doze, Resume, Waking}
  }

  /** Between setting locked and clearing it. */
  predicate Owns(pc: Pc) {
    pc in {Taken, Inside, Back, Clear}
  }

  predicate CanStep(s: System, p: nat)
    requires p < |s.pcs|
  {
    match s.pcs[p]
    case Asleep => false
    case Enter => s.spin.None?
    case Back => s.spin.None?
    case Sleep => s.table.None?
    case Ready => s.table.None?
    case Wake => s.table.None?
    case _ => true
  }

  function WakeAll(pcs: seq<Pc>): (r: seq<Pc>)
    ensures |r| == |pcs|
    ensures forall p :: 0 <= p < |pcs| ==> r[p] == if pcs[p] == Asleep then Ready else pcs[p]
  {
    seq(|pcs|, p requires 0 <= p < |pcs| => if pcs[p] == Asleep then Ready else pcs[p])
  }

  function SetPc(s: System, p: nat, pc: Pc): (r: System)
    requires p < |s.pcs|
  {
    s.(pcs := s.pcs[p := pc])
  }

  /** One step of process p.  From Outside it begins acquiresleep, from Inside it begins releasesleep. */
  function Step(s: System, p: nat): (r: System)
    requires p < |s.pcs| && CanStep(s, p)
  {
    match s.pcs[p]
    case Outside => SetPc(s, p, Enter)
    case Enter => SetPc(s, p, Test).(spin := Some(p))
    case Test => if s.owner.Some? then SetPc(s, p, Sleep) else SetPc(s, p, Taken).(owner := Some(p))
    case Sleep => SetPc(s, p, Release).(table := Some(p))
    case Release => SetPc(s, p, Doze).(spin := None)
    case Doze => SetPc(s, p, Asleep).(table := None)
    case Asleep => s
    case Ready => SetPc(s, p, Resume).(table := Some(p))
    case Resume => SetPc(s, p, Enter).(table := None)
    case Taken => SetPc(s, p, Inside).(spin := None)
    case Inside => SetPc(s, p, Back)
    case Back => SetPc(s, p, Clear).(spin := Some(p))
    case Clear => SetPc(s, p, Wake).(owner := None)
    case Wake => SetPc(s, p, Waking).(table := Some(p))
    case Waking => SetPc(s.(pcs := WakeAll(s.pcs), table := None), p, Leave)
    case Leave => SetPc(s, p, Outside).(spin := None)
  }

  /** A sleeper waits for an owner, unless the wakeup is on its way. */
  ghost predicate Awaited(s: System, pc: Pc) {
    pc in {Sleep, Release, Doze, Asleep} ==>
      || s.owner.Some?
      || (pc in {Doze, Asleep} && s.spin.Some? && s.spin.value < |s.pcs| && s.pcs[s.spin.value] in {Wake, Waking})
  }

  ghost predicate Inv(s: System) {
    && (forall p :: 0 <= p < |s.pcs| ==> (HoldsSpin(s.pcs[p]) <==> s.spin == Some(p)))
    && (forall p :: 0 <= p < |s.pcs| ==> (HoldsTable(s.pcs[p]) <==> s.table == Some(p)))
    && (forall p :: 0 <= p < |s.pcs| ==> (Owns(s.pcs[p]) <==> s.owner == Some(p)))
    && (s.spin.Some? ==> s.spin.value < |s.pcs|)
    && (s.table.Some? ==> s.table.value < |s.pcs|)
    && (s.owner.Some? ==> s.owner.value < |s.pcs|)
    && (forall p :: 0 <= p < |s.pcs| ==> Awaited(s, s.pcs[p]))
  }

  lemma StepEnter(s: System, p: nat)
    requires Inv(s) && p < |s.pcs| && CanStep(s, p) && s.pcs[p] in {Outside, Enter, Test}
    ensures Inv(Step(s, p))
  {
  }

  lemma StepSleep(s: System, p: nat)
    requires Inv(s) && p < |s.pcs| && CanStep(s, p) && s.pcs[p] in {Sleep, Release, Doze}
    ensures Inv(Step(s, p))
  {
  }

  lemma StepReturn(s: System, p: nat)
    requires Inv(s) && p < |s.pcs| && CanStep(s, p) && s.pcs[p] in {Ready, Resume}
    ensures Inv(Step(s, p))
  {
  }

  lemma StepTaken(s: System, p: nat)
    requires Inv(s) && p < |s.pcs| && CanStep(s, p) && s.pcs[p] in {Taken, Inside, Back}
    ensures Inv(Step(s, p))
  {
  }

  lemma StepClear(s: System, p: nat)
    requires Inv(s) && p < |s.pcs| && CanStep(s, p) && s.pcs[p] in {Clear, Wake}
    ensures Inv(Step(s, p))
  {
  }

  lemma StepWake(s: System, p: nat)
    requires Inv(s) && p < |s.pcs| && CanStep(s, p) && s.pcs[p] in {Waking, Leave}
    ensures Inv(Step(s, p))
  {
  }

  lemma StepInv(s: System, p: nat)
    requires Inv(s) && p < |s.pcs| && CanStep(s, p)
    ensures Inv(Step(s, p))
  {
    hide Inv, Step;
    if s.pcs[p] in {Outside, Enter, Test} {
      StepEnter(s, p);
    } else if s.pcs[p] in {Sleep, Release, Doze} {
      StepSleep(s, p);
    } else if s.pcs[p] in {Ready, Resume} {
      StepReturn(s, p);
    } else if s.pcs[p] in {Taken, Inside, Back} {
      StepTaken(s, p);
    } else if s.pcs[p] in {Clear, Wake} {
      StepClear(s, p);
    } else {
      StepWake(s, p);
    }
  }

  ghost predicate Possible(s: System, run: seq<nat>)
    decreases |run|
  {
    run == [] || (run[0] < |s.pcs| && CanStep(s, run[0]) && Possible(Step(s, run[0]), run[1..]))
  }

  ghost function Exec(s: System, run: seq<nat>): (r: System)
    requires Possible(s, run)
    decreases |run|
  {
    if run == [] then s else Exec(Step(s, run[0]), run[1..])
  }

  /** The process for which holdingsleep answers yes is the only one inside. */
  ghost predicate Exclusive(s: System) {
    forall p, q :: 0 <= p < |s.pcs| && 0 <= q < |s.pcs| && Owns(s.pcs[p]) && Owns(s.pcs[q]) ==>
      p == q && s.owner == Some(p)
  }

  ghost predicate NobodyForgotten(s: System) {
    s.spin.None? && s.owner.None? ==> forall p :: 0 <= p < |s.pcs| ==> s.pcs[p] != Asleep
  }

  /** In every interleaving the lock excludes, and no sleeper is left behind on a free lock. */
  lemma {:induction false} EveryRun(s: System, run: seq<nat>)
    requires Inv(s) && Possible(s, run)
    ensures Inv(Exec(s, run)) && Exclusive(Exec(s, run)) && NobodyForgotten(Exec(s, run))
    decreases |run|
  {
    if run != [] {
      StepInv(s, run[0]);
      EveryRun(Step(s, run[0]), run[1..]);
    }
  }

  lemma InitialInv(s: System)
    requires s.spin.None? && s.table.None? && s.owner.None? && forall p :: 0 <= p < |s.pcs| ==> s.pcs[p] == Outside
    ensures Inv(s)
  {
  }

  /**
  A process that is asleep, or on the way in or out, can go on itself, or the holder of a lock that
  stands in its way can.
  */
  lemma NoDeadlock(s: System, p: nat) returns (q: nat)
    requires Inv(s) && p < |s.pcs| && s.pcs[p] != Outside && s.pcs[p] != Inside
    ensures q < |s.pcs| && CanStep(s, q) && s.pcs[q] != Outside
    ensures q == p || s.table == Some(q) || s.spin == Some(q) || s.owner == Some(q)
  {
    assert Awaited(s, s.pcs[p]);
    if s.table.Some? {
      q := s.table.value;
    } else if s.spin.Some? {
      q := s.spin.value;
    } else if s.pcs[p] == Asleep {
      q := s.owner.value;
    } else {
      q := p;
    }
  }
}

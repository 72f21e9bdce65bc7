/**
Sleep and wakeup on a pipe, for any number of processes.  A step is what one process does between
two points at which another one can come in: taking or giving up a lock, moving one byte, waking
the sleepers of a channel, falling asleep.  Two locks are involved, that of the pipe and that of
the process table, and sleep gives up the first one only when it holds the second.
*/
module SleepWakeup {
  import opened Prelude
  import opened Blocks
  import opened Ring

  datatype Job =
    | Reading(n: nat, got: seq<byte>)
    | Writing(src: seq<byte>, i: nat)
    | Closing(writable: bool)

  datatype Pc =
    | Outside       // not in the code of the pipe
    | OutsideTable  // elsewhere in the kernel, holding the table lock
    | Enter         // acquire(&p->lock), at the start or at the end of sleep
    | Loop          // at the test of the loop
    | Copy          // in the copy loop of piperead
    | Wake          // pipewrite found the pipe full: wakeup(&p->nread), about to take the table lock
    | Waking        // the same, holding both locks
    | Sleep         // sleep: acquire(&ptable.lock)
    | Release       // sleep: release(lk), holding both locks
    | Doze          // sleep: about to set SLEEPING, holding the table lock
    | Asleep        // SLEEPING
    | Ready         // RUNNABLE again
    | Resume        // scheduled, holding the table lock
    | LastWake      // the wakeup before the end, about to take the table lock
    | LastWaking    // the same, holding both locks
    | Leave         // release(&p->lock)

  datatype Proc = Proc(job: Job, pc: Pc)

  /** `returned` lists what the finished calls of piperead have returned. */
  datatype System = System(procs: seq<Proc>, lock: Option<nat>, table: Option<nat>, ring: Ring,
                           readopen: bool, writeopen: bool, returned: seq<seq<byte>>)

  datatype Chan = OnRead | OnWrite

  predicate HoldsLock(pc: Pc) {
    pc in {Loop, Copy, Wake, Waking, Sleep, Release, LastWake, LastWaking, Leave}
  }

  predicate HoldsTable(pc: Pc) {
    pc in {OutsideTable, Waking, Release, Doze, Resume, LastWaking}
  }

  /** The channel on which a reader or a writer sleeps. */
  function SleepChan(j: Job): (c: Chan) {
    if j.Reading? then OnRead else OnWrite
  }

  /** The channel that a call wakes before it ends. */
  function WakeChan(j: Job): (c: Chan) {
    match j
    case Reading(_, _) => OnWrite
    case Writing(_, _) => OnRead
    case Closing(w) => if w then OnRead else OnWrite
  }

  /* ---- steps ---- */

  function SetPc(s: System, p: nat, pc: Pc): (r: System)
    requires p < |s.procs|
  {
    s.(procs := s.procs[p := Proc(s.procs[p].job, pc)])
  }

  function SetProc(s: System, p: nat, j: Job, pc: Pc): (r: System)
    requires p < |s.procs|
  {
    s.(procs := s.procs[p := Proc(j, pc)])
  }

  /** wakeup1: every process that sleeps on the channel becomes runnable. */
  function WakeAll(procs: seq<Proc>, c: Chan): (r: seq<Proc>)
    ensures |r| == |procs|
    ensures forall p :: 0 <= p < |procs| ==>
              r[p] ==
              if procs[p].pc == Asleep && SleepChan(procs[p].job) == c then Proc(procs[p].job, Ready) else procs[p]
  {
    seq(|procs|, p requires 0 <= p < |procs| =>
      if procs[p].pc == Asleep && SleepChan(procs[p].job) == c then Proc(procs[p].job, Ready) else procs[p])
  }

  /** The loop of wakeup1 over the process table. */
  method Wakeup1(procs: array<Proc>, c: Chan)
    modifies procs
    ensures procs[..] == WakeAll(old(procs[..]), c)
  {
    var p := 0;
    while p < procs.Length
      invariant 0 <= p <= procs.Length
      invariant forall q :: 0 <= q < p ==> procs[q] == WakeAll(old(procs[..]), c)[q]
      invariant forall q :: p <= q < procs.Length ==> procs[q] == old(procs[q])
    {
      if procs[p].pc == Asleep && SleepChan(procs[p].job) == c {
        procs[p] := Proc(procs[p].job, Ready);
      }
      p := p + 1;
    }
  }

  /** Nothing but a lock can hold a process up, or sleep. */
  predicate CanStep(s: System, p: nat)
    requires p < |s.procs|
  {
    match s.procs[p].pc
    case Outside => false
    case Asleep => false
    case Enter => s.lock.None?
    case Wake => s.table.None?
    case Sleep => s.table.None?
    case Ready => s.table.None?
    case LastWake => s.table.None?
    case _ => true
  }

  /** What a process does at the test of its loop, holding the lock of the pipe. */
  function AtLoop(s: System, p: nat): (r: System)
    requires p < |s.procs| && |s.ring.data| == PIPESIZE
  {
    match s.procs[p].job
    case Reading(n, got) =>
      if Empty(s.ring) && s.writeopen then SetPc(s, p, Sleep) else SetPc(s, p, Copy)
    case Writing(src, i) =>
      if i >= |src| then SetPc(s, p, LastWake)
      else if Full(s.ring) then if s.readopen then SetPc(s, p, Wake) else SetPc(s, p, Leave)
      else SetProc(s, p, Writing(src, i + 1), Loop).(ring := Store(s.ring, src[i]))
    case Closing(w) =>
      SetPc(s, p, LastWake).(readopen := s.readopen && w, writeopen := s.writeopen && !w)
  }

  function AtCopy(s: System, p: nat): (r: System)
    requires p < |s.procs| && |s.ring.data| == PIPESIZE
  {
    match s.procs[p].job
    case Reading(n, got) =>
      if |got| < n && !Empty(s.ring) then SetProc(s, p, Reading(n, got + [Front(s.ring)]), Copy).(ring := Take(s.ring))
      else SetPc(s, p, LastWake)
    case _ => s
  }

  function AtLeave(s: System, p: nat): (r: System)
    requires p < |s.procs|
  {
    var t := SetPc(s, p, Outside).(lock := None);
    if s.procs[p].job.Reading? then t.(returned := s.returned + [s.procs[p].job.got]) else t
  }

  function Step(s: System, p: nat): (r: System)
    requires p < |s.procs| && |s.ring.data| == PIPESIZE && CanStep(s, p)
  {
    var j := s.procs[p].job;
    match s.procs[p].pc
    case OutsideTable => SetPc(s, p, Outside).(table := None)
    case Enter => SetPc(s, p, Loop).(lock := Some(p))
    case Loop => AtLoop(s, p)
    case Copy => AtCopy(s, p)
    case Wake => SetPc(s, p, Waking).(table := Some(p))
    case Waking => SetPc(s.(procs := WakeAll(s.procs, OnRead), table := None), p, Sleep)
    case Sleep => SetPc(s, p, Release).(table := Some(p))
    case Release => SetPc(s, p, Doze).(lock := None)
    case Doze => SetPc(s, p, Asleep).(table := None)
    case Ready => SetPc(s, p, Resume).(table := Some(p))
    case Resume => SetPc(s, p, Enter).(table := None)
    case LastWake => SetPc(s, p, LastWaking).(table := Some(p))
    case LastWaking => SetPc(s.(procs := WakeAll(s.procs, WakeChan(j)), table := None), p, Leave)
    case Leave => AtLeave(s, p)
    case _ => s
  }

  datatype Event = Go(p: nat) | Begin(p: nat, job: Job) | TakeTable(p: nat)

  /**
  A call begins.  The file behind an end of the pipe is open as long as some process can use it:
  an end is closed once, when no process is in a call on it, and no call on it begins afterwards.
  */
  ghost predicate MayBegin(s: System, j: Job) {
    match j
    case Reading(_, got) => got == [] && s.readopen && !Busy(s, Closing(false))
    case Writing(_, i) => i == 0 && s.writeopen && !Busy(s, Closing(true))
    case Closing(w) =>
      && (if w then s.writeopen else s.readopen) && !Busy(s, j)
      && forall p :: 0 <= p < |s.procs| && InCall(s.procs[p]) ==>
           !(if w then s.procs[p].job.Writing? else s.procs[p].job.Reading?)
  }

  predicate InCall(p: Proc) {
    p.pc != Outside && p.pc != OutsideTable
  }

  ghost predicate Busy(s: System, j: Job) {
    exists p :: 0 <= p < |s.procs| && InCall(s.procs[p]) && s.procs[p].job == j
  }

  ghost predicate Enabled(s: System, e: Event) {
    e.p < |s.procs| && |s.ring.data| == PIPESIZE &&
    match e
    case Go(p) => CanStep(s, p)
    case Begin(p, j) => s.procs[p].pc == Outside && MayBegin(s, j)
    case TakeTable(p) => s.procs[p].pc == Outside && s.table.None?
  }

  ghost function Next(s: System, e: Event): (r: System)
    requires Enabled(s, e)
  {
    match e
    case Go(p) => Step(s, p)
    case Begin(p, j) => SetProc(s, p, j, Enter)
    case TakeTable(p) => SetPc(s, p, OutsideTable).(table := Some(p))
  }

  /* ---- the invariant ---- */

  /** Who holds a lock is known from where the processes are. */
  ghost predicate Locks(s: System) {
    && (forall p :: 0 <= p < |s.procs| ==> (HoldsLock(s.procs[p].pc) <==> s.lock == Some(p)))
    && (forall p :: 0 <= p < |s.procs| ==> (HoldsTable(s.procs[p].pc) <==> s.table == Some(p)))
    && (s.lock.Some? ==> s.lock.value < |s.procs|)
    && (s.table.Some? ==> s.table.value < |s.procs|)
  }

  /** What a sleeper on a channel is waiting for has not come about. */
  predicate Waits(s: System, c: Chan) {
    match c
    case OnRead => Empty(s.ring) && s.writeopen
    case OnWrite => Full(s.ring) && s.readopen
  }

  /** What each process knows where it is. */
  ghost predicate Local(s: System, x: Proc) {
    && (x.pc in {Sleep, Release} ==> Waits(s, SleepChan(x.job)))
    && (x.pc in {Sleep, Release, Doze, Asleep, Ready, Resume} ==> !x.job.Closing?)
    && (x.pc in {Wake, Waking} ==> x.job.Writing? && Waits(s, OnWrite))
    && (x.pc == Copy ==> x.job.Reading?)
    && (InCall(x) && x.job.Reading? && x.pc !in {Copy, LastWake, LastWaking, Leave} ==> x.job.got == [])
    && (InCall(x) && x.job.Reading? ==> s.readopen)
  }

  /** The holder of the lock will wake the channel before it gives the lock up. */
  predicate Owes(x: Proc, c: Chan) {
    && (x.pc in {Copy, Wake, Waking, LastWake, LastWaking} || (x.pc == Loop && x.job.Writing?))
    && WakeChan(x.job) == c
  }

  /** The process sleeps, or is about to and cannot be stopped any more. */
  predicate Dozes(x: Proc) {
    x.pc == Doze || x.pc == Asleep
  }

  ghost predicate Awaited(s: System, x: Proc) {
    Dozes(x) ==>
      || Waits(s, SleepChan(x.job))
      || (s.lock.Some? && s.lock.value < |s.procs| && Owes(s.procs[s.lock.value], SleepChan(x.job)))
  }

  ghost predicate Closes(s: System) {
    forall p, q :: 0 <= p < |s.procs| && 0 <= q < |s.procs| && InCall(s.procs[p]) && InCall(s.procs[q])
                   && s.procs[p].job == Closing(false) ==>
      !s.procs[q].job.Reading?
  }

  ghost predicate Inv(s: System) {
    && Locks(s) && Ok(s.ring) && Closes(s)
    && (forall p :: 0 <= p < |s.procs| ==> Local(s, s.procs[p]) && Awaited(s, s.procs[p]))
  }

  /* ---- every step keeps it ---- */

  lemma StepEnter(s: System, p: nat)
    requires Inv(s) && p < |s.procs| && s.procs[p].pc == Enter && CanStep(s, p)
    ensures Inv(Step(s, p))
  {
    hide Ok, Full, Empty;
  }

  lemma StepTakesTable(s: System, p: nat)
    requires Inv(s) && p < |s.procs| && s.procs[p].pc in {Wake, Sleep} && CanStep(s, p)
    ensures Inv(Step(s, p))
  {
    hide Ok, Full, Empty;
  }

  lemma StepTakesTableToo(s: System, p: nat)
    requires Inv(s) && p < |s.procs| && s.procs[p].pc in {Ready, LastWake} && CanStep(s, p)
    ensures Inv(Step(s, p))
  {
    hide Ok, Full, Empty;
  }

  lemma StepGivesTable(s: System, p: nat)
    requires Inv(s) && p < |s.procs| && s.procs[p].pc == OutsideTable
    ensures Inv(Step(s, p))
  {
    hide Ok, Full, Empty;
  }

  lemma StepResume(s: System, p: nat)
    requires Inv(s) && p < |s.procs| && s.procs[p].pc == Resume
    ensures Inv(Step(s, p))
  {
    hide Ok, Full, Empty;
  }

  lemma StepRelease(s: System, p: nat)
    requires Inv(s) && p < |s.procs| && s.procs[p].pc == Release
    ensures Inv(Step(s, p))
  {
    hide Ok, Full, Empty;
  }

  lemma StepDoze(s: System, p: nat)
    requires Inv(s) && p < |s.procs| && s.procs[p].pc == Doze
    ensures Inv(Step(s, p))
  {
    hide Ok, Full, Empty;
  }

  lemma StepWaking(s: System, p: nat)
    requires Inv(s) && p < |s.procs| && s.procs[p].pc == Waking
    ensures Inv(Step(s, p))
  {
    hide Ok, Full, Empty;
  }

  lemma StepLastWaking(s: System, p: nat)
    requires Inv(s) && p < |s.procs| && s.procs[p].pc == LastWaking
    ensures Inv(Step(s, p))
  {
    hide Ok, Full, Empty;
  }

  lemma StepLeave(s: System, p: nat)
    requires Inv(s) && p < |s.procs| && s.procs[p].pc == Leave
    ensures Inv(AtLeave(s, p))
  {
    hide Ok, Full, Empty;
    var r := AtLeave(s, p);
    assert forall q :: 0 <= q < |s.procs| && q != p ==> r.procs[q] == s.procs[q];
    assert r.procs[p].pc == Outside && r.lock == None;
  }

  lemma StepTake(s: System, p: nat)
    requires Inv(s) && p < |s.procs| && s.procs[p].pc == Copy
    requires s.procs[p].job.Reading? && |s.procs[p].job.got| < s.procs[p].job.n && !Empty(s.ring)
    ensures Inv(Step(s, p))
  {
    hide Ok, Full, Empty, Take;
    TakeOk(s.ring);
    TakeMeans(s.ring);
  }

  lemma StepCopied(s: System, p: nat)
    requires Inv(s) && p < |s.procs| && s.procs[p].pc == Copy
    requires s.procs[p].job.Reading? && (|s.procs[p].job.got| >= s.procs[p].job.n || Empty(s.ring))
    ensures Inv(Step(s, p))
  {
    hide Ok, Full, Empty, Take;
  }

  lemma StepReader(s: System, p: nat)
    requires Inv(s) && p < |s.procs| && s.procs[p].pc == Loop && s.procs[p].job.Reading?
    ensures Inv(Step(s, p))
  {
    hide Ok, Full, Empty, Store;
  }

  lemma StepStore(s: System, p: nat)
    requires Inv(s) && p < |s.procs| && s.procs[p].pc == Loop && s.procs[p].job.Writing?
    requires s.procs[p].job.i < |s.procs[p].job.src| && !Full(s.ring)
    ensures Inv(Step(s, p))
  {
    hide Ok, Full, Empty, Store;
    OkLength(s.ring);
    StoreOk(s.ring, s.procs[p].job.src[s.procs[p].job.i]);
    StoreMeans(s.ring, s.procs[p].job.src[s.procs[p].job.i]);
  }

  /** Without an open read end there are no readers left whom the wakeup could miss. */
  lemma StepWriter(s: System, p: nat)
    requires Inv(s) && p < |s.procs| && s.procs[p].pc == Loop && s.procs[p].job.Writing?
    requires s.procs[p].job.i >= |s.procs[p].job.src| || Full(s.ring)
    ensures Inv(Step(s, p))
  {
    hide Ok, Full, Empty, Store;
  }

  lemma StepClose(s: System, p: nat)
    requires Inv(s) && p < |s.procs| && s.procs[p].pc == Loop && s.procs[p].job.Closing?
    ensures Inv(Step(s, p))
  {
    hide Ok, Full, Empty, Store;
  }

  lemma LeaveStep(s: System, p: nat)
    requires |s.ring.data| == PIPESIZE && p < |s.procs| && s.procs[p].pc == Leave
    ensures Step(s, p) == AtLeave(s, p)
  {
  }

  lemma StepInv(s: System, p: nat)
    requires Inv(s) && p < |s.procs| && CanStep(s, p)
    ensures Inv(Step(s, p))
  {
    hide Step, Full, Empty;
    var j := s.procs[p].job;
    assert Local(s, s.procs[p]);
    match s.procs[p].pc
    case Enter => StepEnter(s, p);
    case Wake => StepTakesTable(s, p);
    case Sleep => StepTakesTable(s, p);
    case Ready => StepTakesTableToo(s, p);
    case LastWake => StepTakesTableToo(s, p);
    case OutsideTable => StepGivesTable(s, p);
    case Resume => StepResume(s, p);
    case Release => StepRelease(s, p);
    case Doze => StepDoze(s, p);
    case Waking => StepWaking(s, p);
    case LastWaking => StepLastWaking(s, p);
    case Leave =>
      StepLeave(s, p);
      LeaveStep(s, p);
    case Copy =>
      if |j.got| < j.n && !Empty(s.ring) {
        StepTake(s, p);
      } else {
        StepCopied(s, p);
      }
    case Loop =>
      if j.Reading? {
        StepReader(s, p);
      } else if j.Closing? {
        StepClose(s, p);
      } else if j.i < |j.src| && !Full(s.ring) {
        StepStore(s, p);
      } else {
        StepWriter(s, p);
      }
  }

  lemma NextInv(s: System, e: Event)
    requires Inv(s) && Enabled(s, e)
    ensures Inv(Next(s, e))
  {
    match e
    case Go(p) => StepInv(s, p);
    case Begin(p, j) => BeginInv(s, p, j);
    case TakeTable(p) => TakeTableInv(s, p);
  }

  lemma BeginInv(s: System, p: nat, j: Job)
    requires Inv(s) && p < |s.procs| && s.procs[p].pc == Outside && MayBegin(s, j)
    ensures Inv(SetProc(s, p, j, Enter))
  {
    hide Ok, Full, Empty;
    var r := SetProc(s, p, j, Enter);
    forall a, b | 0 <= a < |r.procs| && 0 <= b < |r.procs| && InCall(r.procs[a]) && InCall(r.procs[b])
                  && r.procs[a].job == Closing(false)
      ensures !r.procs[b].job.Reading?
    {
      if a != p && b == p {
        assert InCall(s.procs[a]) && s.procs[a].job == Closing(false);
      }
    }
  }

  lemma TakeTableInv(s: System, p: nat)
    requires Inv(s) && p < |s.procs| && s.procs[p].pc == Outside && s.table.None?
    ensures Inv(SetPc(s, p, OutsideTable).(table := Some(p)))
  {
    hide Ok, Full, Empty;
  }

  /* ---- what holds over every run ---- */

  ghost predicate Possible(s: System, evs: seq<Event>)
    decreases |evs|
  {
    evs == [] || (Enabled(s, evs[0]) && Possible(Next(s, evs[0]), evs[1..]))
  }

  ghost function Exec(s: System, evs: seq<Event>): (r: System)
    requires Possible(s, evs)
    decreases |evs|
  {
    if evs == [] then s else Exec(Next(s, evs[0]), evs[1..])
  }

  /** A new pipe: both ends open, nothing stored, nobody in a call. */
  ghost predicate Initial(s: System) {
    && s.lock.None? && s.table.None? && s.readopen && s.writeopen && s.returned == []
    && |s.ring.data| == PIPESIZE && s.ring == Ring(s.ring.data, 0, 0, [], 0)
    && forall p :: 0 <= p < |s.procs| ==> s.procs[p].pc == Outside
  }

  /** No wakeup is lost: while the lock is free, whoever sleeps has something to wait for. */
  ghost predicate NobodyForgotten(s: System) {
    s.lock.None? ==> forall p :: 0 <= p < |s.procs| && s.procs[p].pc == Asleep ==> Waits(s, SleepChan(s.procs[p].job))
  }

  /** What has been returned, and what the running copy has taken, in the order of the calls. */
  ghost function Received(s: System): (r: seq<byte>) {
    Flat(s.returned) +
    (if s.lock.Some? && s.lock.value < |s.procs| && s.procs[s.lock.value].job.Reading?
     then s.procs[s.lock.value].job.got else [])
  }

  ghost function Flat(a: seq<seq<byte>>): (r: seq<byte>) {
    if a == [] then [] else Flat(a[..|a| - 1]) + a[|a| - 1]
  }

  ghost predicate Fifo(s: System) {
    s.ring.taken <= |s.ring.written| && Received(s) == s.ring.written[..s.ring.taken]
  }

  lemma TakeFifo(s: System, p: nat)
    requires Inv(s) && Fifo(s) && p < |s.procs| && s.procs[p].pc == Copy
    ensures |s.ring.data| == PIPESIZE && Fifo(AtCopy(s, p))
  {
    hide Full, Empty, Ok, Awaited, Closes, Flat;
    OkLength(s.ring);
    assert Local(s, s.procs[p]) && s.lock == Some(p);
    var r := AtCopy(s, p);
    if !Empty(s.ring) && r.ring != s.ring {
      TakeOk(s.ring);
      assert Received(r) == Received(s) + [Front(s.ring)];
      assert s.ring.written[..s.ring.taken + 1] == s.ring.written[..s.ring.taken] + [s.ring.written[s.ring.taken]];
    }
  }

  lemma LeaveFifo(s: System, p: nat)
    requires Inv(s) && Fifo(s) && p < |s.procs| && s.procs[p].pc == Leave
    ensures Fifo(AtLeave(s, p))
  {
    hide Full, Empty, Awaited, Closes, Ok;
    var r := AtLeave(s, p);
    assert s.lock == Some(p);
    if s.procs[p].job.Reading? {
      assert r.returned[..|r.returned| - 1] == s.returned;
    }
  }

  /** Taking and giving the table lock, waking and sleeping touch neither the pipe nor any call's data. */
  lemma DataKept(s: System, p: nat)
    requires |s.ring.data| == PIPESIZE && p < |s.procs| && CanStep(s, p)
    requires s.procs[p].pc !in {Enter, Loop, Copy, Release, Leave}
    ensures var r := Step(s, p);
            && r.lock == s.lock && r.ring == s.ring && r.returned == s.returned && |r.procs| == |s.procs|
            && forall q :: 0 <= q < |s.procs| ==> r.procs[q].job == s.procs[q].job
  {
  }

  /** Taking and giving the lock happens before anything is read. */
  lemma LockFifo(s: System, p: nat)
    requires Inv(s) && Fifo(s) && p < |s.procs| && CanStep(s, p) && s.procs[p].pc in {Enter, Release}
    ensures |s.ring.data| == PIPESIZE && Fifo(Step(s, p))
  {
    hide Full, Empty, Awaited, Closes, Ok, Flat;
    OkLength(s.ring);
    assert Local(s, s.procs[p]);
  }

  lemma LoopFifo(s: System, p: nat)
    requires Inv(s) && Fifo(s) && p < |s.procs| && s.procs[p].pc == Loop
    ensures |s.ring.data| == PIPESIZE && Fifo(AtLoop(s, p))
  {
    hide Full, Empty, Awaited, Closes, Ok, Flat;
    OkLength(s.ring);
    var r := AtLoop(s, p);
    assert s.lock == Some(p);
    assert Received(r) == Received(s);
    assert r.ring.written[..r.ring.taken] == s.ring.written[..s.ring.taken];
  }

  lemma StepFifo(s: System, p: nat)
    requires Inv(s) && Fifo(s) && p < |s.procs| && CanStep(s, p)
    ensures |s.ring.data| == PIPESIZE && Fifo(Step(s, p))
  {
    hide Full, Empty, Awaited, Closes, Ok, Flat, Local, AtLoop, AtCopy, AtLeave, WakeAll;
    OkLength(s.ring);
    if s.procs[p].pc == Copy {
      TakeFifo(s, p);
    } else if s.procs[p].pc == Leave {
      LeaveFifo(s, p);
    } else if s.procs[p].pc == Loop {
      LoopFifo(s, p);
    } else if s.procs[p].pc in {Enter, Release} {
      LockFifo(s, p);
    } else {
      DataKept(s, p);
      SameReceived(s, Step(s, p));
    }
  }

  lemma SameReceived(s: System, r: System)
    requires Fifo(s) && r.lock == s.lock && r.ring == s.ring && r.returned == s.returned && |r.procs| == |s.procs|
    requires forall q :: 0 <= q < |s.procs| ==> r.procs[q].job == s.procs[q].job
    ensures Fifo(r)
  {
  }

  lemma NextFifo(s: System, e: Event)
    requires Inv(s) && Fifo(s) && Enabled(s, e)
    ensures Fifo(Next(s, e))
  {
    hide Full, Empty, Awaited, Closes, Ok, Flat, Local, Step;
    match e
    case Go(p) => StepFifo(s, p);
    case Begin(p, j) =>
    case TakeTable(p) =>
  }

  /** In every interleaving of any number of readers and writers no wakeup is lost and the bytes keep their order. */
  lemma {:induction false} EveryRun(s: System, evs: seq<Event>)
    requires Inv(s) && Fifo(s) && Possible(s, evs)
    ensures Inv(Exec(s, evs)) && Fifo(Exec(s, evs)) && NobodyForgotten(Exec(s, evs))
    decreases |evs|
  {
    hide Fifo, Enabled, Full, Empty;
    if evs != [] {
      NextInv(s, evs[0]);
      NextFifo(s, evs[0]);
      EveryRun(Next(s, evs[0]), evs[1..]);
    }
  }

  lemma InitialInv(s: System)
    requires Initial(s)
    ensures Inv(s) && Fifo(s)
  {
  }

  /** Somebody can always go on, unless everyone is outside or asleep. */
  lemma NoDeadlock(s: System, p: nat) returns (q: nat)
    requires Inv(s) && p < |s.procs| && s.procs[p].pc != Outside && s.procs[p].pc != Asleep
    ensures q < |s.procs| && CanStep(s, q)
  {
    hide Ok, Full, Empty;
    if s.table.Some? {
      q := s.table.value;
    } else if s.lock.Some? {
      q := s.lock.value;
    } else {
      q := p;
    }
  }
}

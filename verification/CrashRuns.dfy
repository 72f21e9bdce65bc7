/**
Every run of the logged file system: processes update cached blocks inside a transaction,
commit() issues its disk writes one at a time, the machine may stop between any two writes,
and recovery issues its own writes one at a time and may itself be cut short, any number of times.
The reference is a store whose transactions take effect at one instant.
*/
module CrashRuns {
  import opened Blocks
  import opened CrashRecovery

  datatype Phase =
    | Running(blocks: seq<word>)
    | Committing(base: Disk, blocks: seq<word>, vals: seq<Block>, done: nat)
    | Recovering(base: Disk, done: nat)
    | Down

  /** `mem` is what the processes read through the cache; a crash loses it. */
  datatype World = World(disk: Disk, mem: Disk, phase: Phase)

  datatype Event =
    | Update(blockno: word, data: Block)
    | StartCommit
    | CommitWrite
    | EndCommit
    | Crash(garbage: Disk)
    | Boot
    | RecoverWrite
    | EndRecover

  /** log_write's list: a block already listed is absorbed. */
  function Absorb(blocks: seq<word>, b: word): (r: seq<word>) {
    if b in blocks then blocks else blocks + [b]
  }

  ghost predicate Enabled(a: Area, w: World, ev: Event) {
    match ev
    case Update(b, _) =>
      w.phase.Running? && b < |w.mem| && a.Fits(w.mem, Absorb(w.phase.blocks, b))
    case StartCommit => w.phase.Running? && |w.phase.blocks| > 0
    case CommitWrite => w.phase.Committing? && w.phase.done < 2 * |w.phase.blocks| + 2
    case EndCommit => w.phase.Committing? && w.phase.done == 2 * |w.phase.blocks| + 2
    case Crash(g) => |g| == |w.disk|
    case Boot => w.phase.Down?
    case RecoverWrite =>
      w.phase.Recovering? && Recoverable(a, w.phase.base) && w.phase.done < |RecoverWrites(a, w.phase.base)|
    case EndRecover =>
      w.phase.Recovering? && Recoverable(a, w.phase.base) && w.phase.done == |RecoverWrites(a, w.phase.base)|
  }

  /** What holds between any two steps of any run. */
  ghost predicate Inv(a: Area, w: World) {
    && |w.mem| == |w.disk|
    && match w.phase
       case Running(blocks) =>
         && Empty(a, w.disk) && a.Fits(w.disk, blocks)
         && forall b :: 0 <= b < |w.disk| && !a.Holds(b) && (forall t :: 0 <= t < |blocks| ==> blocks[t] != b)
                        ==> w.mem[b] == w.disk[b]
       case Committing(base, blocks, vals, done) =>
         && |base| == |w.disk| && Empty(a, base) && a.Fits(base, blocks) && |vals| == |blocks| > 0
         && done <= 2 * |blocks| + 2
         && InRange(base, CommitWrites(a, base[a.start], blocks, vals)[..done])
         && w.disk == ApplyAll(base, CommitWrites(a, base[a.start], blocks, vals)[..done])
         && SameHome(a, w.mem, Overlay(base, blocks, vals))
       case Recovering(base, done) =>
         && |base| == |w.disk| && Recoverable(a, base) && done <= |RecoverWrites(a, base)|
         && w.disk == ApplyAll(base, RecoverWrites(a, base)[..done])
       case Down => Recoverable(a, w.disk)
  }

  ghost function Next(a: Area, w: World, ev: Event): (r: World)
    requires Inv(a, w) && Enabled(a, w, ev)
  {
    match ev
    case Update(b, d) =>
      World(w.disk, w.mem[b := d], Running(Absorb(w.phase.blocks, b)))
    case StartCommit =>
      World(w.disk, w.mem, Committing(w.disk, w.phase.blocks, Vals(w.mem, w.phase.blocks), 0))
    case CommitWrite =>
      var p := w.phase;
      CommitInRange(a, p.base, p.base[a.start], p.blocks, p.vals);
      var c := CommitWrites(a, p.base[a.start], p.blocks, p.vals)[p.done];
      World(w.disk[c.blockno := c.data], w.mem, Committing(p.base, p.blocks, p.vals, p.done + 1))
    case EndCommit => World(w.disk, w.mem, Running([]))
    case Crash(g) => World(w.disk, g, Down)
    case Boot => World(w.disk, w.mem, Recovering(w.disk, 0))
    case RecoverWrite =>
      var p := w.phase;
      var c := RecoverWrites(a, p.base)[p.done];
      World(w.disk[c.blockno := c.data], w.mem, Recovering(p.base, p.done + 1))
    case EndRecover => World(w.disk, w.disk, Running([]))
  }

  /** The write that makes the open transaction durable. */
  ghost predicate CommitPoint(w: World, ev: Event) {
    ev.CommitWrite? && w.phase.Committing? && w.phase.done == |w.phase.blocks|
  }

  /* ---- one step ---- */

  lemma StartCommitInv(a: Area, w: World)
    requires Inv(a, w) && Enabled(a, w, StartCommit)
    ensures Inv(a, Next(a, w, StartCommit))
  {
    var blocks := w.phase.blocks;
    var vals := Vals(w.mem, blocks);
    var ws := CommitWrites(a, w.disk[a.start], blocks, vals);
    assert ws[..0] == [];
    forall b | 0 <= b < |w.disk| && !a.Holds(b)
      ensures w.mem[b] == Overlay(w.disk, blocks, vals)[b]
    {
      OverlayAt(w.disk, w.mem, blocks, b);
    }
  }

  lemma CommitWriteInv(a: Area, w: World)
    requires Inv(a, w) && Enabled(a, w, CommitWrite)
    ensures Inv(a, Next(a, w, CommitWrite))
  {
    var p := w.phase;
    var ws := CommitWrites(a, p.base[a.start], p.blocks, p.vals);
    CommitInRange(a, p.base, p.base[a.start], p.blocks, p.vals);
    assert ws[..p.done + 1][..p.done] == ws[..p.done];
    assert ws[..p.done + 1][p.done] == ws[p.done];
  }

  lemma EndCommitInv(a: Area, w: World)
    requires Inv(a, w) && Enabled(a, w, EndCommit)
    ensures Inv(a, Next(a, w, EndCommit))
  {
    var p := w.phase;
    var ws := CommitWrites(a, p.base[a.start], p.blocks, p.vals);
    CommitInRange(a, p.base, p.base[a.start], p.blocks, p.vals);
    assert ws[..p.done] == ws;
    AfterCommit(a, p.base, p.base[a.start], p.blocks, p.vals);
  }

  /** In every phase the disk can be recovered, so a crash is never fatal. */
  lemma AlwaysRecoverable(a: Area, w: World)
    requires Inv(a, w)
    ensures Recoverable(a, w.disk)
    ensures Empty(a, Recovered(a, w.disk))
    ensures w.phase.Running? ==> SameHome(a, Recovered(a, w.disk), w.disk)
  {
    match w.phase
    case Running(_) =>
      EmptyRecovers(a, w.disk);
    case Committing(base, blocks, vals, done) =>
      if done <= |blocks| {
        CrashBeforeHeader(a, base, blocks, vals, done);
      } else {
        CrashAfterHeader(a, base, blocks, vals, done);
      }
    case Recovering(base, done) =>
      CrashInRecovery(a, base, done);
    case Down =>
      RecoveredIsEmpty(a, w.disk);
  }

  lemma RecoverStepInv(a: Area, w: World, ev: Event)
    requires Inv(a, w) && Enabled(a, w, ev)
    requires ev.Boot? || ev.RecoverWrite? || ev.EndRecover?
    ensures Inv(a, Next(a, w, ev))
  {
    match ev
    case Boot =>
      assert RecoverWrites(a, w.disk)[..0] == [];
    case RecoverWrite =>
      var p := w.phase;
      var ws := RecoverWrites(a, p.base);
      assert ws[..p.done + 1][..p.done] == ws[..p.done];
      assert ws[..p.done + 1][p.done] == ws[p.done];
    case EndRecover =>
      var p := w.phase;
      assert RecoverWrites(a, p.base)[..p.done] == RecoverWrites(a, p.base);
      RecoveredIsEmpty(a, p.base);
  }

  lemma UpdateInv(a: Area, w: World, b: word, d: Block)
    requires Inv(a, w) && Enabled(a, w, Update(b, d))
    ensures Inv(a, Next(a, w, Update(b, d)))
  {
    var blocks := Absorb(w.phase.blocks, b);
    assert forall t :: 0 <= t < |w.phase.blocks| ==> blocks[t] == w.phase.blocks[t];
    if b in w.phase.blocks {
      var t :| 0 <= t < |w.phase.blocks| && w.phase.blocks[t] == b;
      assert blocks[t] == b;
    } else {
      assert blocks[|w.phase.blocks|] == b;
    }
  }

  lemma InvKept(a: Area, w: World, ev: Event)
    requires Inv(a, w) && Enabled(a, w, ev)
    ensures Inv(a, Next(a, w, ev))
  {
    match ev
    case Update(b, d) => UpdateInv(a, w, b, d);
    case StartCommit => StartCommitInv(a, w);
    case CommitWrite => CommitWriteInv(a, w);
    case EndCommit => EndCommitInv(a, w);
    case Crash(_) => AlwaysRecoverable(a, w);
    case Boot => RecoverStepInv(a, w, ev);
    case RecoverWrite => RecoverStepInv(a, w, ev);
    case EndRecover => RecoverStepInv(a, w, ev);
  }

  /** A commit's disk recovers to the old home blocks up to the header write, and to the new ones from then on. */
  lemma CommittingRecovers(a: Area, w: World)
    requires Inv(a, w) && w.phase.Committing?
    ensures Recoverable(a, w.disk)
    ensures SameHome(a, Recovered(a, w.disk), if w.phase.done <= |w.phase.blocks| then w.phase.base else w.mem)
  {
    var p := w.phase;
    if p.done <= |p.blocks| {
      CrashBeforeHeader(a, p.base, p.blocks, p.vals, p.done);
    } else {
      CrashAfterHeader(a, p.base, p.blocks, p.vals, p.done);
    }
  }

  lemma CommitWriteDurable(a: Area, w: World)
    requires Inv(a, w) && Enabled(a, w, CommitWrite)
    ensures Recoverable(a, w.disk) && Recoverable(a, Next(a, w, CommitWrite).disk)
    ensures SameHome(a, Recovered(a, Next(a, w, CommitWrite).disk),
                     if CommitPoint(w, CommitWrite) then w.mem else Recovered(a, w.disk))
  {
    CommitWriteInv(a, w);
    CommittingRecovers(a, w);
    CommittingRecovers(a, Next(a, w, CommitWrite));
  }

  lemma RecoverWriteDurable(a: Area, w: World)
    requires Inv(a, w) && Enabled(a, w, RecoverWrite)
    ensures Recoverable(a, w.disk) && Recoverable(a, Next(a, w, RecoverWrite).disk)
    ensures SameHome(a, Recovered(a, Next(a, w, RecoverWrite).disk), Recovered(a, w.disk))
  {
    RecoverStepInv(a, w, RecoverWrite);
    CrashInRecovery(a, w.phase.base, w.phase.done);
    CrashInRecovery(a, w.phase.base, w.phase.done + 1);
  }

  /** After every step the disk can be recovered. */
  lemma {:induction false} RecoverableStep(a: Area, w: World, ev: Event)
    requires Inv(a, w) && Enabled(a, w, ev)
    ensures Recoverable(a, Next(a, w, ev).disk)
  {
    InvKept(a, w, ev);
    AlwaysRecoverable(a, Next(a, w, ev));
  }

  /**
  The state a crash would leave behind changes in one step only: the write of the non-empty
  header, which makes it the memory view with the whole open transaction.
  */
  lemma {:induction false} DurableStep(a: Area, w: World, ev: Event)
    requires Inv(a, w) && Enabled(a, w, ev) && Recoverable(a, w.disk) && Recoverable(a, Next(a, w, ev).disk)
    ensures SameHome(a, Recovered(a, Next(a, w, ev).disk), if CommitPoint(w, ev) then w.mem else Recovered(a, w.disk))
  {
    if ev.CommitWrite? {
      CommitWriteDurable(a, w);
    } else if ev.RecoverWrite? {
      RecoverWriteDurable(a, w);
    } else {
      assert Next(a, w, ev).disk == w.disk;
    }
  }

  /* ---- whole runs ---- */

  ghost predicate Possible(a: Area, w: World, evs: seq<Event>)
    decreases |evs|, 0
  {
    |evs| == 0 ||
    (&& Possible(a, w, evs[..|evs| - 1])
     && Inv(a, Exec(a, w, evs[..|evs| - 1]))
     && Enabled(a, Exec(a, w, evs[..|evs| - 1]), evs[|evs| - 1]))
  }

  ghost function Exec(a: Area, w: World, evs: seq<Event>): (r: World)
    requires Possible(a, w, evs)
    decreases |evs|, 1
  {
    if |evs| == 0 then w
    else Next(a, Exec(a, w, evs[..|evs| - 1]), evs[|evs| - 1])
  }

  /** The reference store: a commit point replaces it by the memory view, nothing else touches it. */
  ghost function Reference(a: Area, w: World, evs: seq<Event>): (r: Disk)
    requires Possible(a, w, evs)
  {
    if |evs| == 0 then w.disk
    else
      var before := Exec(a, w, evs[..|evs| - 1]);
      if CommitPoint(before, evs[|evs| - 1]) then before.mem
      else Reference(a, w, evs[..|evs| - 1])
  }

  /**
  Crash atomicity over every run from a freshly started file system: whatever happened and
  wherever the machine stopped, recovering the disk gives the reference store; and while the
  file system is up between transactions the disk itself holds the reference store.
  */
  lemma {:induction false} CrashAtomicity(a: Area, w: World, evs: seq<Event>)
    requires Inv(a, w) && w.phase == Running([])
    requires Possible(a, w, evs)
    ensures Inv(a, Exec(a, w, evs))
    ensures Recoverable(a, Exec(a, w, evs).disk)
    ensures SameHome(a, Recovered(a, Exec(a, w, evs).disk), Reference(a, w, evs))
    ensures Exec(a, w, evs).phase.Running? ==> SameHome(a, Exec(a, w, evs).disk, Reference(a, w, evs))
    decreases |evs|
  {
    hide Inv, Enabled, Next, Recoverable, Recovered, SameHome, Empty;
    if |evs| == 0 {
      AlwaysRecoverable(a, w);
    } else {
      var front := evs[..|evs| - 1];
      var u := Exec(a, w, front);
      CrashAtomicity(a, w, front);
      InvKept(a, u, evs[|evs| - 1]);
      AlwaysRecoverable(a, u);
      RecoverableStep(a, u, evs[|evs| - 1]);
      DurableStep(a, u, evs[|evs| - 1]);
      AlwaysRecoverable(a, Exec(a, w, evs));
      Chained(a, Recovered(a, Exec(a, w, evs).disk), Recovered(a, u.disk), Reference(a, w, front));
    }
    Chained(a, Exec(a, w, evs).disk, Recovered(a, Exec(a, w, evs).disk), Reference(a, w, evs));
  }

  lemma Chained(a: Area, d: Disk, e: Disk, f: Disk)
    ensures SameHome(a, d, e) ==> SameHome(a, e, d)
    ensures SameHome(a, d, e) && SameHome(a, e, f) ==> SameHome(a, d, f)
    ensures SameHome(a, e, d) && SameHome(a, e, f) ==> SameHome(a, d, f)
  {
  }

  /** A run may go on with any event that is enabled in the state it has reached. */
  lemma RunsExtend(a: Area, w: World, evs: seq<Event>, ev: Event)
    requires Inv(a, w) && w.phase == Running([])
    requires Possible(a, w, evs)
    ensures Possible(a, w, evs + [ev]) <==> Enabled(a, Exec(a, w, evs), ev)
  {
    CrashAtomicity(a, w, evs);
    assert (evs + [ev])[..|evs|] == evs;
  }

  /** After a restart the processes read exactly the reference store. */
  lemma RestartReadsReference(a: Area, w: World, evs: seq<Event>)
    requires Inv(a, w) && w.phase == Running([])
    requires |evs| > 0 && Possible(a, w, evs) && evs[|evs| - 1] == EndRecover
    ensures SameHome(a, Exec(a, w, evs).mem, Reference(a, w, evs[..|evs| - 1]))
  {
    CrashAtomicity(a, w, evs);
  }
}

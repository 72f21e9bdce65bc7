/**
Any number of processes over the log and the buffer cache: some inside operations, which read, change,
record and release blocks, and some that only read, while the commit goes on block by block beside them.
The reference has one memory and the world of `CrashRuns`: every block that a process gets has what was
last put there, the disk writes are those of a run that `CrashRuns` knows, and the cache is calm whenever
a commit begins, because of where the processes are.
*/
module LogRuns {
  import opened Prelude
  import opened Blocks
  import opened CrashRecovery
  import opened BufferCache
  import opened Log
  import CrashRuns
  import Reservation

  /** How a process has a block: it sleeps for the lock, holds it, or has changed it and not yet recorded that. */
  datatype Mode = Waiting | Holding | Fresh

  datatype Proc = Proc(inOp: bool, has: map<nat, Mode>)

  datatype Move =
    | Begin(p: nat)                                // begin_op
    | Read(p: nat, b: nat)                         // bread, up to where it returns or sleeps
    | Wake(p: nat, b: nat)                         // bread, after the sleep
    | Change(p: nat, b: nat, data: Block)
    | Record(p: nat, b: nat)                       // log_write
    | Release(p: nat, b: nat)                      // brelse
    | End(p: nat)                                  // end_op
    | CommitStep

  datatype Answer = Skipped | Sleeps | Contents(data: Block) | Silent

  /** The reference; `draft` has the changes that are not yet recorded. */
  datatype Ref = Ref(procs: seq<Proc>, w: CrashRuns.World, draft: map<nat, Block>)

  /* ---- where the processes are ---- */

  predicate Holds(q: Proc, b: nat) {
    b in q.has && q.has[b] != Waiting
  }

  predicate Taken(procs: seq<Proc>, b: nat) {
    exists p :: 0 <= p < |procs| && Holds(procs[p], b)
  }

  /** A block has one holder. */
  ghost predicate Exclusive(procs: seq<Proc>) {
    forall p, q, b: nat :: 0 <= p < |procs| && 0 <= q < |procs| && Holds(procs[p], b) && Holds(procs[q], b) ==> p == q
  }

  ghost function Users(procs: seq<Proc>, b: nat): (n: nat) {
    if procs == [] then 0 else One(b in procs[0].has) + Users(procs[1..], b)
  }

  function One(yes: bool): (n: nat) {
    if yes then 1 else 0
  }

  ghost function Open(procs: seq<Proc>): (n: nat) {
    if procs == [] then 0 else One(procs[0].inOp) + Open(procs[1..])
  }

  lemma {:induction false} UsersUpdate(procs: seq<Proc>, p: nat, q: Proc, b: nat)
    requires p < |procs|
    ensures Users(procs[p := q], b) + One(b in procs[p].has) == Users(procs, b) + One(b in q.has)
  {
    if p == 0 {
      assert procs[0 := q][1..] == procs[1..];
    } else {
      UsersUpdate(procs[1..], p - 1, q, b);
      assert procs[p := q][1..] == procs[1..][p - 1 := q];
    }
  }

  lemma {:induction false} OpenUpdate(procs: seq<Proc>, p: nat, q: Proc)
    requires p < |procs|
    ensures Open(procs[p := q]) + One(procs[p].inOp) == Open(procs) + One(q.inOp)
  {
    if p == 0 {
      assert procs[0 := q][1..] == procs[1..];
    } else {
      OpenUpdate(procs[1..], p - 1, q);
      assert procs[p := q][1..] == procs[1..][p - 1 := q];
    }
  }

  lemma {:induction false} SomeUser(procs: seq<Proc>, b: nat)
    ensures Users(procs, b) > 0 <==> exists p :: 0 <= p < |procs| && b in procs[p].has
  {
    if procs != [] {
      SomeUser(procs[1..], b);
      if p :| 0 <= p < |procs[1..]| && b in procs[1..][p].has {
        assert b in procs[p + 1].has;
      }
      if p :| 0 <= p < |procs| && b in procs[p].has {
        assert p > 0 ==> b in procs[1..][p - 1].has;
      }
    }
  }

  lemma {:induction false} SomeOpen(procs: seq<Proc>, p: nat)
    requires p < |procs| && procs[p].inOp
    ensures Open(procs) > 0
  {
    if p > 0 {
      SomeOpen(procs[1..], p - 1);
    }
  }

  /* ---- the reference ---- */

  ghost function ListOf(r: Ref): (blocks: seq<word>) {
    if r.w.phase.Running? || r.w.phase.Committing? then r.w.phase.blocks else []
  }

  /** What a process finds in block b. */
  ghost function Sees(r: Ref, b: nat): (d: Block)
    requires b < |r.w.mem|
  {
    if b in r.draft then r.draft[b] else r.w.mem[b]
  }

  /** The rules of the cache and of the log for their callers; what breaks them is skipped. */
  predicate Legal(a: Area, procs: seq<Proc>, size: nat, committing: bool, m: Move) {
    match m
    case Begin(p) => p < |procs| && !procs[p].inOp
    case Read(p, b) => p < |procs| && b !in procs[p].has && b < size && b < 0x1_0000_0000 && !a.Holds(b)
    case Wake(p, b) => p < |procs| && b in procs[p].has && procs[p].has[b] == Waiting
    case Change(p, b, _) => p < |procs| && procs[p].inOp && Holds(procs[p], b)
    case Record(p, b) => p < |procs| && procs[p].inOp && Holds(procs[p], b)
    case Release(p, b) => p < |procs| && b in procs[p].has && procs[p].has[b] == Holding
    case End(p) => p < |procs| && procs[p].inOp && NoneFresh(procs[p])
    case CommitStep => committing
  }

  ghost predicate Goes(a: Area, r: Ref, m: Move) {
    Legal(a, r.procs, |r.w.disk|, r.w.phase.Committing?, m)
  }

  predicate NoneFresh(q: Proc) {
    forall b :: b in q.has ==> q.has[b] != Fresh
  }

  ghost predicate Admitted(r: Ref) {
    r.w.phase.Running? && |r.w.phase.blocks| + (Open(r.procs) + 1) * Reservation.MAXOPBLOCKS <= LOGSIZE
  }

  /** A reader holds the home block that the commit has come to. */
  ghost predicate InTheWay(r: Ref)
    requires r.w.phase.Committing?
  {
    var n, k := |r.w.phase.blocks|, r.w.phase.done;
    if k < n then Taken(r.procs, r.w.phase.blocks[k])
    else n < k <= 2 * n && Taken(r.procs, r.w.phase.blocks[k - n - 1])
  }

  /** The events of `CrashRuns` that a move stands for. */
  ghost function Events(a: Area, r: Ref, m: Move): (evs: seq<CrashRuns.Event>) {
    if !Goes(a, r, m) then [] else
    match m
    case Change(_, b, data) => if b in ListOf(r) then [CrashRuns.Update(b as word, data)] else []
    case Record(_, b) =>
      if b < |r.w.mem| && b < 0x1_0000_0000 then [CrashRuns.Update(b as word, Sees(r, b))] else []
    case End(p) => if Open(r.procs) == 1 && ListOf(r) != [] then [CrashRuns.StartCommit] else []
    case CommitStep =>
      if InTheWay(r) then []
      else if r.w.phase.done < 2 * |r.w.phase.blocks| + 1 then [CrashRuns.CommitWrite]
      else [CrashRuns.CommitWrite, CrashRuns.EndCommit]
    case _ => []
  }

  ghost function After(a: Area, w: CrashRuns.World, evs: seq<CrashRuns.Event>): (r: CrashRuns.World)
    decreases |evs|
  {
    if evs == [] then w
    else if CrashRuns.Inv(a, w) && CrashRuns.Enabled(a, w, evs[0]) then After(a, CrashRuns.Next(a, w, evs[0]), evs[1..])
    else w
  }

  function With(q: Proc, b: nat, mode: Mode): (r: Proc) {
    Proc(q.inOp, q.has[b := mode])
  }

  ghost function ProcsAfter(a: Area, r: Ref, m: Move): (procs: seq<Proc>) {
    if !Goes(a, r, m) then r.procs else
    match m
    case Begin(p) => if Admitted(r) then r.procs[p := Proc(true, r.procs[p].has)] else r.procs
    case Read(p, b) => r.procs[p := With(r.procs[p], b, if Taken(r.procs, b) then Waiting else Holding)]
    case Wake(p, b) => if Taken(r.procs, b) then r.procs else r.procs[p := With(r.procs[p], b, Holding)]
    case Change(p, b, _) => r.procs[p := With(r.procs[p], b, Fresh)]
    case Record(p, b) => r.procs[p := With(r.procs[p], b, Holding)]
    case Release(p, b) => r.procs[p := Proc(r.procs[p].inOp, r.procs[p].has - {b})]
    case End(p) => r.procs[p := Proc(false, r.procs[p].has)]
    case CommitStep => r.procs
  }

  ghost function DraftAfter(a: Area, r: Ref, m: Move): (draft: map<nat, Block>) {
    if !Goes(a, r, m) then r.draft else
    match m
    case Change(_, b, data) => if b in ListOf(r) then r.draft else r.draft[b := data]
    case Record(_, b) => r.draft - {b}
    case _ => r.draft
  }

  ghost function Next(a: Area, r: Ref, m: Move): (t: Ref) {
    Ref(ProcsAfter(a, r, m), After(a, r.w, Events(a, r, m)), DraftAfter(a, r, m))
  }

  ghost function Reply(a: Area, r: Ref, m: Move): (x: Answer) {
    if !Goes(a, r, m) then Skipped else
    match m
    case Begin(_) => if Admitted(r) then Silent else Sleeps
    case Read(_, b) => if Taken(r.procs, b) || b >= |r.w.mem| then Sleeps else Contents(Sees(r, b))
    case Wake(_, b) => if Taken(r.procs, b) || b >= |r.w.mem| then Sleeps else Contents(Sees(r, b))
    case CommitStep => if InTheWay(r) then Sleeps else Silent
    case _ => Silent
  }

  /* ---- the buffers and their users ---- */

  ghost predicate BufUsed(b: Buf, procs: seq<Proc>) {
    b.dev == ROOTDEV ==>
      b.refcnt == Users(procs, b.blockno) && (b.locked <==> Taken(procs, b.blockno)) && (b.locked ==> b.valid)
  }

  /** The process has the buffer that the cache has for the block. */
  ghost predicate HasIt(q: Proc, b: nat, at: map<nat, nat>, a: Area, size: nat, ptr: map<nat, nat>) {
    b in q.has ==> b in at && b in ptr && ptr[b] == at[b] && b < size && b < 0x1_0000_0000 && !a.Holds(b)
  }

  ghost predicate Used(buf: seq<Buf>, at: map<nat, nat>, a: Area, size: nat, procs: seq<Proc>, ptr: map<nat, nat>) {
    && (forall i :: 0 <= i < |buf| ==> BufUsed(buf[i], procs))
    && (forall p, b: nat :: 0 <= p < |procs| ==> HasIt(procs[p], b, at, a, size, ptr))
    && Exclusive(procs)
  }

  /** Process p differs in what it has of block b alone. */
  predicate SameBut(q: Proc, r: Proc, b: nat) {
    q.has - {b} == r.has - {b}
  }

  lemma SameButMeans(q: Proc, r: Proc, b: nat, c: nat)
    requires SameBut(q, r, b) && c != b
    ensures (c in q.has <==> c in r.has) && (Holds(q, c) <==> Holds(r, c))
  {
    assert c in q.has - {b} <==> c in r.has - {b};
    assert c in q.has ==> (q.has - {b})[c] == (r.has - {b})[c];
  }

  lemma TakenUpdate(procs: seq<Proc>, p: nat, q: Proc, c: nat)
    requires p < |procs| && (Holds(procs[p], c) <==> Holds(q, c))
    ensures Taken(procs[p := q], c) <==> Taken(procs, c)
  {
    var r := procs[p := q];
    if Taken(procs, c) {
      var j :| 0 <= j < |procs| && Holds(procs[j], c);
      assert Holds(r[j], c);
    }
    if Taken(r, c) {
      var j :| 0 <= j < |r| && Holds(r[j], c);
      assert Holds(procs[j], c);
    }
  }

  lemma OtherBuf(x: Buf, procs: seq<Proc>, p: nat, q: Proc, b: nat)
    requires BufUsed(x, procs) && p < |procs| && SameBut(procs[p], q, b) && (x.dev == ROOTDEV ==> x.blockno != b)
    ensures BufUsed(x, procs[p := q])
  {
    if x.dev == ROOTDEV {
      SameButMeans(procs[p], q, b, x.blockno);
      UsersUpdate(procs, p, q, x.blockno);
      TakenUpdate(procs, p, q, x.blockno);
    }
  }

  /** One process gains, changes or loses its part in one block, and one buffer changes with it. */
  lemma UpdateUsed(buf: seq<Buf>, at: map<nat, nat>, a: Area, size: nat, procs: seq<Proc>, ptr: map<nat, nat>,
                   buf': seq<Buf>, at': map<nat, nat>, p: nat, q: Proc, b: nat, i: nat)
    requires Used(buf, at, a, size, procs, ptr) && Indexed(buf, at) && Indexed(buf', at')
    requires p < |procs| && SameBut(procs[p], q, b) && Exclusive(procs[p := q])
    requires i < |buf| == |buf'| && buf' == buf[i := buf'[i]] && buf'[i].dev == ROOTDEV && buf'[i].blockno == b
    requires BufUsed(buf'[i], procs[p := q]) && (b in at ==> at[b] == i) && (b !in at ==> buf[i].refcnt == 0)
    requires b < size && b < 0x1_0000_0000 && !a.Holds(b)
    ensures Used(buf', at', a, size, procs[p := q], ptr[b := i])
  {
    hide BufUsed, Users, Taken, Holds, Exclusive, SameBut;
    forall j | 0 <= j < |buf'|
      ensures BufUsed(buf'[j], procs[p := q])
    {
      if j != i {
        assert buf'[j] == buf[j] && BufUsed(buf[j], procs);
        assert !(buf'[j].dev == ROOTDEV && buf'[j].blockno == b);
        OtherBuf(buf[j], procs, p, q, b);
      }
    }
    var procs', ptr' := procs[p := q], ptr[b := i];
    forall r, c: nat | 0 <= r < |procs'|
      ensures HasIt(procs'[r], c, at', a, size, ptr')
    {
      if c != b && c in procs'[r].has {
        if r == p {
          SameButMeans(procs[p], q, b, c);
        }
        assert HasIt(procs[r], c, at, a, size, ptr);
        KeptBuf(buf, at, procs, buf', at', r, b, c, i);
      }
    }
  }

  /** The buffer of a block that somebody has stays where it is. */
  lemma KeptBuf(buf: seq<Buf>, at: map<nat, nat>, procs: seq<Proc>, buf': seq<Buf>, at': map<nat, nat>, r: nat, b: nat,
                c: nat, i: nat)
    requires Indexed(buf, at) && Indexed(buf', at') && r < |procs| && c in procs[r].has && c in at && c != b
    requires forall j :: 0 <= j < |buf| ==> BufUsed(buf[j], procs)
    requires i < |buf| == |buf'| && buf' == buf[i := buf'[i]]
    requires (b in at ==> at[b] == i) && (b !in at ==> buf[i].refcnt == 0)
    ensures c in at' && at'[c] == at[c]
  {
    hide Users, Taken;
    SomeUser(procs, c);
    var k := at[c];
    assert BufUsed(buf[k], procs);
    assert k != i;
    assert buf'[k] == buf[k];
  }

  /** A commit leaves the users alone. */
  lemma CommitUsed(buf: seq<Buf>, at: map<nat, nat>, a: Area, size: nat, procs: seq<Proc>, ptr: map<nat, nat>,
                   buf': seq<Buf>, at': map<nat, nat>, s: State, s': State)
    requires Used(buf, at, a, size, procs, ptr) && Sound(buf, at, s) && Sound(buf', at', s') && SameUsers(buf, buf')
    ensures Used(buf', at', a, size, procs, ptr)
  {
    hide BufUsed, Users, Taken, Exclusive, Sound;
    forall r, c: nat | 0 <= r < |procs|
      ensures HasIt(procs[r], c, at', a, size, ptr)
    {
      assert HasIt(procs[r], c, at, a, size, ptr);
      if c in procs[r].has {
        SharedBuf(buf, at, procs, buf', at', s, s', r, c);
      }
    }
    forall j | 0 <= j < |buf'|
      ensures BufUsed(buf'[j], procs)
    {
      assert BufUsed(buf[j], procs);
      UsedStill(buf, at, procs, buf', at', s, s', j, a, size, ptr);
    }
  }

  lemma SharedBuf(buf: seq<Buf>, at: map<nat, nat>, procs: seq<Proc>, buf': seq<Buf>, at': map<nat, nat>, s: State,
                  s': State, r: nat, c: nat)
    requires Sound(buf, at, s) && Sound(buf', at', s') && SameUsers(buf, buf') && r < |procs| && c in procs[r].has
    requires c in at && forall j :: 0 <= j < |buf| ==> BufUsed(buf[j], procs)
    ensures c in at' && at'[c] == at[c] && at[c] < |buf| && buf[at[c]].refcnt > 0
  {
    hide Users, Taken;
    SomeUser(procs, c);
    assert BufUsed(buf[at[c]], procs);
    assert buf'[at[c]].dev == ROOTDEV && buf'[at[c]].blockno == c;
  }

  lemma UsedStill(buf: seq<Buf>, at: map<nat, nat>, procs: seq<Proc>, buf': seq<Buf>, at': map<nat, nat>, s: State,
                  s': State, j: nat, a: Area, size: nat, ptr: map<nat, nat>)
    requires Used(buf, at, a, size, procs, ptr) && Sound(buf, at, s) && Sound(buf', at', s') && SameUsers(buf, buf')
    requires j < |buf'|
    ensures BufUsed(buf'[j], procs)
  {
    hide Users;
    var x, y := buf[j], buf'[j];
    assert BufUsed(x, procs) && BufOk(x, s) && BufOk(y, s');
    if x.refcnt == 0 && y.dev == ROOTDEV {
      SomeUser(procs, y.blockno);
      forall r | 0 <= r < |procs|
        ensures y.blockno !in procs[r].has
      {
        if y.blockno in procs[r].has {
          assert HasIt(procs[r], y.blockno, at, a, size, ptr);
          SharedBuf(buf, at, procs, buf', at', s, s', r, y.blockno);
        }
      }
    }
  }

  /* ---- the code against the reference ---- */

  ghost predicate FreshAt(procs: seq<Proc>, b: nat) {
    exists p :: 0 <= p < |procs| && procs[p].inOp && b in procs[p].has && procs[p].has[b] == Fresh
  }

  /** What is not recorded belongs to an open operation that still holds the block. */
  ghost predicate Drafts(r: Ref) {
    && (forall b :: b in r.draft ==> FreshAt(r.procs, b) && b !in ListOf(r))
    && (forall p :: 0 <= p < |r.procs| && !r.procs[p].inOp ==> NoneFresh(r.procs[p]))
  }

  ghost predicate InPhase(l: Log, r: Ref)
    reads l, l.cache
  {
    match r.w.phase
    case Running(blocks) => !l.committing && l.Valid() && blocks == l.Blocks()
    case Committing(base, blocks, vals, done) =>
      && l.committing && l.Underway() && Open(r.procs) == 0
      && base == l.base && blocks == l.Blocks() && vals == Vals(l.seen, l.Blocks()) && done == l.done
    case _ => false
  }

  ghost predicate Views(a: Area, r: Ref, view: Disk) {
    |r.w.mem| == |view| && forall b: nat :: b < |view| && !a.Holds(b) ==> Sees(r, b) == view[b]
  }

  ghost predicate Agrees(l: Log, r: Ref, ptr: map<nat, nat>)
    reads l, l.cache
  {
    && InPhase(l, r) && CrashRuns.Inv(l.Place(), r.w) && r.w.disk == l.cache.disk && l.outstanding == Open(r.procs)
    && Views(l.Place(), r, l.cache.view) && Drafts(r)
    && Used(l.cache.buf, l.cache.at, l.Place(), |l.cache.disk|, r.procs, ptr)
  }

  /** Where the kernel panics. */
  ghost predicate Stuck(l: Log, m: Move)
    reads l, l.cache
  {
    match m
    case Read(_, b) => b !in l.cache.at && !HasSpare(l.cache.buf)
    case Record(_, _) => l.n >= LOGSIZE || l.n >= l.size - 1
    case CommitStep => !HasSpare(l.cache.buf)
    case _ => false
  }

  lemma PhaseMeans(l: Log, r: Ref)
    requires InPhase(l, r)
    ensures l.cache.Valid() && l.n <= LOGSIZE == |l.block| && 0 < l.size && l.Place().Fits(l.cache.disk, l.Blocks())
    ensures ListOf(r) == l.Blocks() && (r.w.phase.Running? || r.w.phase.Committing?)
    ensures l.committing == r.w.phase.Committing?
    ensures forall k :: k in l.cache.pinned ==> !l.Place().Holds(k)
  {
  }

  /** Beside the pinned blocks the disk has caught up with the view. */
  lemma UnderwayClean(l: Log, k: nat)
    requires l.Underway() && k < |l.cache.disk| && k !in l.cache.pinned
    ensures l.cache.view[k] == l.cache.disk[k]
  {
    hide Sound, Listed, Linked, Written, ApplyAll, WritesOf, NoRepeats, Empty, BlockSet;
    CaughtUp(l.Place(), l.base, l.seen, l.Blocks(), l.done, k);
  }

  lemma CaughtUp(a: Area, base: Disk, seen: Disk, blocks: seq<word>, done: nat, k: nat)
    requires |base| == |seen| && k < |base| && a.Fits(base, blocks) && done < 2 * |blocks| + 2
    requires k !in BlockSet(if done <= |blocks| then blocks else blocks[done - |blocks| - 1..])
    requires forall b :: 0 <= b < |base| && b !in BlockSet(blocks) ==> seen[b] == base[b]
    ensures var ws := WritesOf(a, base, seen, blocks);
            && |ws| == 2 * |blocks| + 2 && InRange(base, ws)
            && ApplyAll(seen, ws[..done])[k] == ApplyAll(base, ws[..done])[k]
  {
    hide PutHeader, CommitWrites, ApplyAll;
    var vals := Vals(seen, blocks);
    CommitInRange(a, base, base[a.start], blocks, vals);
    if k in BlockSet(blocks) {
      var t :| 0 <= t < |blocks| && blocks[t] as nat == k;
      InstalledBefore(a, base[a.start], blocks, vals, t, done);
    }
    ApplyAgree(base, seen, CommitWrites(a, base[a.start], blocks, vals)[..done], k);
  }

  /** A listed block that is no longer pinned has been written to its home. */
  lemma InstalledBefore(a: Area, h: Block, blocks: seq<word>, vals: seq<Block>, t: nat, done: nat)
    requires |blocks| == |vals| <= LOGSIZE && t < |blocks| && done < 2 * |blocks| + 2
    requires blocks[t] as nat !in BlockSet(if done <= |blocks| then blocks else blocks[done - |blocks| - 1..])
    ensures |CommitWrites(a, h, blocks, vals)| == 2 * |blocks| + 2
    ensures Writes(CommitWrites(a, h, blocks, vals)[..done], blocks[t])
  {
    hide CommitWrites, BlockSet;
    assert blocks[0..] == blocks;
    TailHas(blocks, if done <= |blocks| then 0 else done - |blocks| - 1, t);
    InstallAt(a, h, blocks, vals, t, done);
  }

  lemma InstallAt(a: Area, h: Block, blocks: seq<word>, vals: seq<Block>, t: nat, done: nat)
    requires |blocks| == |vals| <= LOGSIZE && t < |blocks| && |blocks| + 1 + t < done < 2 * |blocks| + 2
    ensures |CommitWrites(a, h, blocks, vals)| == 2 * |blocks| + 2
    ensures Writes(CommitWrites(a, h, blocks, vals)[..done], blocks[t])
  {
    hide PutHeader;
    assert CommitWrites(a, h, blocks, vals)[..done][|blocks| + 1 + t].blockno == blocks[t] as nat;
  }

  lemma TailHas(blocks: seq<word>, k: nat, t: nat)
    requires k <= |blocks| && t < |blocks|
    ensures t >= k ==> blocks[t] as nat in BlockSet(blocks[k..])
  {
    if t >= k {
      assert blocks[k..][t - k] == blocks[t];
    }
  }

  /** With nothing unrecorded the cache is calm, whoever reads. */
  lemma CalmNow(l: Log, r: Ref, ptr: map<nat, nat>)
    requires Agrees(l, r, ptr) && r.draft == map[]
    ensures Calm(l.cache.buf, l.Place(), l.cache.disk)
  {
    hide Listed, Linked, Written, Users, Taken, Exclusive, Drafts;
    PhaseMeans(l, r);
    var c, a := l.cache, l.Place();
    forall i | 0 <= i < |c.buf|
      ensures CalmBuf(c.buf[i], a, c.disk)
    {
      var b := c.buf[i];
      assert BufOk(b, c.Abs()) && BufUsed(b, r.procs);
      if b.dev == ROOTDEV && b.blockno < |c.disk| {
        if a.Holds(b.blockno) {
          NoUser(c.at, a, |c.disk|, r.procs, ptr, b.blockno);
        } else if b.valid && !b.dirty {
          HomeClean(l, r, b.blockno);
        }
      }
    }
  }

  lemma NoUser(at: map<nat, nat>, a: Area, size: nat, procs: seq<Proc>, ptr: map<nat, nat>, b: nat)
    requires a.Holds(b) && forall p, c: nat :: 0 <= p < |procs| ==> HasIt(procs[p], c, at, a, size, ptr)
    ensures Users(procs, b) == 0
  {
    SomeUser(procs, b);
    forall p | 0 <= p < |procs|
      ensures b !in procs[p].has
    {
      assert HasIt(procs[p], b, at, a, size, ptr);
    }
  }

  lemma HomeClean(l: Log, r: Ref, k: nat)
    requires InPhase(l, r) && CrashRuns.Inv(l.Place(), r.w) && r.w.disk == l.cache.disk && k !in r.draft
    requires Views(l.Place(), r, l.cache.view) && k < |l.cache.disk| && k !in l.cache.pinned && !l.Place().Holds(k)
    ensures |l.cache.view| == |l.cache.disk| && l.cache.view[k] == l.cache.disk[k]
  {
    hide Sound, Listed, Linked, Written, PutHeader, CommitWrites;
    if r.w.phase.Committing? {
      UnderwayClean(l, k);
    } else {
      Unlisted(l, k);
      assert Sees(r, k) == l.cache.view[k];
    }
  }

  lemma Unlisted(l: Log, k: nat)
    requires l.Valid() && k !in l.cache.pinned
    ensures forall t :: 0 <= t < l.n ==> l.Blocks()[t] as nat != k
  {
  }

  /* ---- the moves ---- */

  lemma AfterOne(a: Area, w: CrashRuns.World, ev: CrashRuns.Event)
    requires CrashRuns.Inv(a, w) && CrashRuns.Enabled(a, w, ev)
    ensures After(a, w, [ev]) == CrashRuns.Next(a, w, ev) && CrashRuns.Inv(a, After(a, w, [ev]))
  {
    hide CrashRuns.Inv, CrashRuns.Enabled, CrashRuns.Next;
    CrashRuns.InvKept(a, w, ev);
    assert [ev][1..] == [];
  }

  lemma NotTaken(buf: seq<Buf>, at: map<nat, nat>, a: Area, size: nat, procs: seq<Proc>, ptr: map<nat, nat>, b: nat)
    requires Used(buf, at, a, size, procs, ptr) && Indexed(buf, at)
    ensures b !in at ==> Users(procs, b) == 0 && !Taken(procs, b)
    ensures b in at ==> (buf[at[b]].locked <==> Taken(procs, b)) && buf[at[b]].refcnt == Users(procs, b)
  {
    hide Users, Exclusive;
    if b in at {
      assert BufUsed(buf[at[b]], procs);
    } else {
      SomeUser(procs, b);
      forall p | 0 <= p < |procs|
        ensures b !in procs[p].has
      {
        assert HasIt(procs[p], b, at, a, size, ptr);
      }
    }
  }

  lemma HoldsMore(procs: seq<Proc>, p: nat, b: nat, mode: Mode)
    requires Exclusive(procs) && p < |procs| && (mode == Waiting || !Taken(procs, b) || Holds(procs[p], b))
    ensures var q := With(procs[p], b, mode); SameBut(procs[p], q, b) && Exclusive(procs[p := q])
    ensures mode != Waiting ==> Taken(procs[p := With(procs[p], b, mode)], b)
  {
    var q := With(procs[p], b, mode);
    var r := procs[p := q];
    assert mode != Waiting ==> Holds(r[p], b);
    forall x, y, c: nat | 0 <= x < |r| && 0 <= y < |r| && Holds(r[x], c) && Holds(r[y], c)
      ensures x == y
    {
      if c != b {
        SameButMeans(procs[p], q, b, c);
        assert Holds(procs[x], c) && Holds(procs[y], c);
      } else if x != p && y != p {
        assert Holds(procs[x], c) && Holds(procs[y], c);
      }
    }
  }

  lemma StillDrafts(r: Ref, p: nat, q: Proc, b: nat)
    requires Drafts(r) && p < |r.procs| && q.inOp == r.procs[p].inOp && SameBut(r.procs[p], q, b)
    requires (b in q.has && q.has[b] == Fresh) <==> (b in r.procs[p].has && r.procs[p].has[b] == Fresh)
    ensures Drafts(r.(procs := r.procs[p := q]))
  {
    var procs := r.procs[p := q];
    forall c | c in r.draft
      ensures FreshAt(procs, c)
    {
      var x :| 0 <= x < |r.procs| && r.procs[x].inOp && c in r.procs[x].has && r.procs[x].has[c] == Fresh;
      ModeKept(r.procs[p], q, b, c);
      assert procs[x].inOp && c in procs[x].has && procs[x].has[c] == Fresh;
    }
    forall x | 0 <= x < |procs| && !procs[x].inOp
      ensures NoneFresh(procs[x])
    {
      assert NoneFresh(r.procs[x]);
      if x == p {
        forall c | c in q.has
          ensures q.has[c] != Fresh
        {
          ModeKept(r.procs[p], q, b, c);
        }
      }
    }
  }

  lemma ModeKept(q: Proc, r: Proc, b: nat, c: nat)
    requires SameBut(q, r, b)
    ensures c != b ==> (c in q.has <==> c in r.has) && (c in q.has ==> q.has[c] == r.has[c])
  {
    assert c in q.has - {b} <==> c in r.has - {b};
    assert c in q.has && c != b ==> (q.has - {b})[c] == (r.has - {b})[c];
  }

  /** bread, as the users of the cache see it. */
  method ReadBlock(c: Bcache, ghost a: Area, procs: seq<Proc>, ptr: map<nat, nat>, p: nat, b: nat)
    returns (ok: bool, x: Answer, procs': seq<Proc>, ptr': map<nat, nat>)
    requires c.Valid() && Used(c.buf, c.at, a, |c.disk|, procs, ptr) && p < |procs| && b !in procs[p].has
    requires b < |c.disk| && b < 0x1_0000_0000 && !a.Holds(b)
    modifies c`buf, c`at, c`disk, c`writes, c`pinned
    ensures c.Valid() && c.Abs() == old(c.Abs()) && c.writes == old(c.writes)
    ensures ok <==> b in old(c.at) || HasSpare(old(c.buf))
    ensures !ok ==> c.buf == old(c.buf) && c.at == old(c.at)
    ensures ok ==>
              && procs' == procs[p := With(procs[p], b, if Taken(procs, b) then Waiting else Holding)]
              && Open(procs') == Open(procs) && Used(c.buf, c.at, a, |c.disk|, procs', ptr')
              && x == if Taken(procs, b) then Sleeps else Contents(c.view[b])
  {
    hide Listed, Linked, Written, Sound, Users, Taken, Holds, Exclusive, Used, SameBut, HasSpare, Indexed, Open;
    IndexedOf(c);
    UsedMeans(c.buf, c.at, a, |c.disk|, procs, ptr);
    ghost var buf, at := c.buf, c.at;
    NotTaken(buf, at, a, |c.disk|, procs, ptr, b);
    var got := c.Bread(b);
    if got.NoBuffers? {
      return false, Skipped, procs, ptr;
    }
    IndexedOf(c);
    var q := With(procs[p], b, if got.Asleep? then Waiting else Holding);
    GainsBlock(procs, p, b, q.has[b]);
    UpdateUsed(buf, at, a, |c.disk|, procs, ptr, c.buf, c.at, p, q, b, got.i);
    return true, if got.Asleep? then Sleeps else Contents(c.buf[got.i].data), procs[p := q], ptr[b := got.i];
  }

  method DoRead(l: Log, procs: seq<Proc>, ptr: map<nat, nat>, p: nat, b: nat, ghost r: Ref)
    returns (ok: bool, x: Answer, procs': seq<Proc>, ptr': map<nat, nat>)
    requires Agrees(l, r, ptr) && r.procs == procs && Goes(l.Place(), r, Read(p, b))
    modifies l.cache`buf, l.cache`at, l.cache`disk, l.cache`writes, l.cache`pinned
    ensures (ok <==> !old(Stuck(l, Read(p, b)))) && (!ok ==> Stuck(l, Read(p, b)) && l.cache.disk == old(l.cache.disk))
    ensures ok ==>
              && Agrees(l, Next(l.Place(), r, Read(p, b)), ptr') && procs' == Next(l.Place(), r, Read(p, b)).procs
              && x == Reply(l.Place(), r, Read(p, b))
  {
    hide Listed, Linked, Written, Sound, Users, Taken, Holds, Exclusive, Used, CrashRuns.Inv, Drafts, SameBut, HasSpare,
         Vals, Issuing, ApplyAll, Open, BlockSet, NoRepeats;
    PhaseMeans(l, r);
    ok, x, procs', ptr' := ReadBlock(l.cache, l.Place(), procs, ptr, p, b);
    if ok {
      WithMeans(procs[p], b, if Taken(procs, b) then Waiting else Holding);
      StillDrafts(r, p, procs'[p], b);
    }
  }

  lemma WithMeans(q: Proc, b: nat, mode: Mode)
    ensures SameBut(q, With(q, b, mode), b)
  {
    assert With(q, b, mode).has - {b} == q.has - {b};
  }

  lemma IndexedOf(c: Bcache)
    requires c.Valid()
    ensures Indexed(c.buf, c.at) && forall k :: k in c.at ==> c.at[k] < |c.buf| && c.buf[c.at[k]].dev == ROOTDEV
  {
  }

  lemma UsedMeans(buf: seq<Buf>, at: map<nat, nat>, a: Area, size: nat, procs: seq<Proc>, ptr: map<nat, nat>)
    requires Used(buf, at, a, size, procs, ptr)
    ensures Exclusive(procs) && forall i :: 0 <= i < |buf| ==> BufUsed(buf[i], procs)
  {
  }

  lemma GainsBlock(procs: seq<Proc>, p: nat, b: nat, mode: Mode)
    requires Exclusive(procs) && p < |procs| && b !in procs[p].has && (mode == Holding ==> !Taken(procs, b))
    requires mode != Fresh
    ensures var q := With(procs[p], b, mode);
            && SameBut(procs[p], q, b) && Exclusive(procs[p := q]) && Open(procs[p := q]) == Open(procs)
            && Users(procs[p := q], b) == Users(procs, b) + 1
            && (Taken(procs[p := q], b) <==> mode == Holding || Taken(procs, b))
  {
    hide Users, Open, Taken, Exclusive;
    var q := With(procs[p], b, mode);
    HoldsMore(procs, p, b, mode);
    UsersUpdate(procs, p, q, b);
    OpenUpdate(procs, p, q);
    if mode == Waiting {
      TakenUpdate(procs, p, q, b);
    }
  }

  /** The rest of bread, when the holder has gone. */
  method WakeUser(c: Bcache, ghost a: Area, procs: seq<Proc>, ptr: map<nat, nat>, p: nat, b: nat)
    returns (x: Answer, procs': seq<Proc>)
    requires c.Valid() && Used(c.buf, c.at, a, |c.disk|, procs, ptr) && p < |procs| && b in procs[p].has
    modifies c`buf, c`disk, c`writes, c`pinned
    ensures c.Valid() && c.Abs() == old(c.Abs()) && c.writes == old(c.writes) && b < |c.disk|
    ensures procs' == if Taken(procs, b) then procs else procs[p := With(procs[p], b, Holding)]
    ensures Open(procs') == Open(procs) && Used(c.buf, c.at, a, |c.disk|, procs', ptr)
    ensures x == if Taken(procs, b) then Sleeps else Contents(c.view[b])
  {
    hide Listed, Linked, Written, Sound, Users, Taken, Holds, Exclusive, Used, SameBut, HasSpare, Indexed, Open;
    IndexedOf(c);
    HasBlock(c.buf, c.at, a, |c.disk|, procs, ptr, p, b);
    ghost var buf := c.buf;
    if c.buf[ptr[b]].locked {
      return Sleeps, procs;
    }
    c.LockAndFill(ptr[b]);
    IndexedOf(c);
    TakesBlock(procs, p, b);
    UpdateUsed(buf, c.at, a, |c.disk|, procs, ptr, c.buf, c.at, p, With(procs[p], b, Holding), b, ptr[b]);
    assert ptr[b := ptr[b]] == ptr;
    return Contents(c.buf[ptr[b]].data), procs[p := With(procs[p], b, Holding)];
  }

  method DoWake(l: Log, procs: seq<Proc>, ptr: map<nat, nat>, p: nat, b: nat, ghost r: Ref)
    returns (x: Answer, procs': seq<Proc>)
    requires Agrees(l, r, ptr) && r.procs == procs && Goes(l.Place(), r, Wake(p, b))
    modifies l.cache`buf, l.cache`disk, l.cache`writes, l.cache`pinned
    ensures Agrees(l, Next(l.Place(), r, Wake(p, b)), ptr) && procs' == Next(l.Place(), r, Wake(p, b)).procs
    ensures x == Reply(l.Place(), r, Wake(p, b))
  {
    hide Listed, Linked, Written, Sound, Users, Taken, Holds, Exclusive, Used, CrashRuns.Inv, Drafts, SameBut, HasSpare,
         Vals, Issuing, ApplyAll, Open, BlockSet, NoRepeats;
    PhaseMeans(l, r);
    IndexedOf(l.cache);
    HasBlock(l.cache.buf, l.cache.at, l.Place(), |l.cache.disk|, procs, ptr, p, b);
    x, procs' := WakeUser(l.cache, l.Place(), procs, ptr, p, b);
    WithMeans(procs[p], b, Holding);
    StillDrafts(r, p, With(procs[p], b, Holding), b);
  }

  /** What is known of a block that a process has. */
  lemma HasBlock(buf: seq<Buf>, at: map<nat, nat>, a: Area, size: nat, procs: seq<Proc>, ptr: map<nat, nat>, p: nat,
                 b: nat)
    requires Used(buf, at, a, size, procs, ptr) && Indexed(buf, at) && p < |procs| && b in procs[p].has
    ensures b in at && b in ptr && ptr[b] == at[b] < |buf| && b < size && b < 0x1_0000_0000 && !a.Holds(b)
    ensures var x := buf[ptr[b]];
            && x.dev == ROOTDEV && x.blockno == b && x.refcnt == Users(procs, b) > 0
            && (x.locked <==> Taken(procs, b)) && (x.locked ==> x.valid)
    ensures Exclusive(procs) && (Holds(procs[p], b) ==> Taken(procs, b))
  {
    hide Users, Exclusive;
    assert HasIt(procs[p], b, at, a, size, ptr);
    assert BufUsed(buf[at[b]], procs);
    SomeUser(procs, b);
  }

  lemma TakesBlock(procs: seq<Proc>, p: nat, b: nat)
    requires Exclusive(procs) && p < |procs| && b in procs[p].has && !Taken(procs, b)
    ensures procs[p].has[b] == Waiting
    ensures var q := With(procs[p], b, Holding);
            && SameBut(procs[p], q, b) && Exclusive(procs[p := q]) && Open(procs[p := q]) == Open(procs)
            && Users(procs[p := q], b) == Users(procs, b) && Taken(procs[p := q], b)
  {
    hide Users, Open, Exclusive;
    var q := With(procs[p], b, Holding);
    HoldsMore(procs, p, b, Holding);
    UsersUpdate(procs, p, q, b);
    OpenUpdate(procs, p, q);
  }

  lemma KeepsBlock(procs: seq<Proc>, p: nat, b: nat, mode: Mode)
    requires Exclusive(procs) && p < |procs| && Holds(procs[p], b) && mode != Waiting
    ensures var q := With(procs[p], b, mode);
            && SameBut(procs[p], q, b) && Exclusive(procs[p := q]) && Open(procs[p := q]) == Open(procs)
            && Users(procs[p := q], b) == Users(procs, b) && Taken(procs[p := q], b)
  {
    hide Users, Open, Exclusive;
    var q := With(procs[p], b, mode);
    HoldsMore(procs, p, b, mode);
    UsersUpdate(procs, p, q, b);
    OpenUpdate(procs, p, q);
  }

  /** A process in an operation keeps the commit away. */
  lemma OpenRunning(l: Log, r: Ref, p: nat)
    requires InPhase(l, r) && p < |r.procs| && r.procs[p].inOp
    ensures r.w.phase == CrashRuns.Running(l.Blocks()) && l.Valid() && !l.committing && Open(r.procs) > 0
  {
    hide Open;
    SomeOpen(r.procs, p);
  }

  method DoChange(l: Log, procs: seq<Proc>, ptr: map<nat, nat>, p: nat, b: nat, data: Block, ghost r: Ref)
    returns (procs': seq<Proc>)
    requires Agrees(l, r, ptr) && r.procs == procs && Goes(l.Place(), r, Change(p, b, data))
    modifies l.cache`buf, l.cache`view
    ensures var m := Change(p, b, data);
            Agrees(l, Next(l.Place(), r, m), ptr) && procs' == Next(l.Place(), r, m).procs
  {
    hide Listed, Linked, Written, Sound, Users, Taken, Exclusive, Used, CrashRuns.Inv, Drafts, SameBut, HasSpare,
         Indexed, Vals, Issuing, ApplyAll, Open;
    var c := l.cache;
    PhaseMeans(l, r);
    OpenRunning(l, r, p);
    IndexedOf(c);
    HasBlock(c.buf, c.at, l.Place(), |c.disk|, procs, ptr, p, b);
    ghost var buf := c.buf;
    c.Store(ptr[b], data);
    IndexedOf(c);
    var q := With(procs[p], b, Fresh);
    KeepsBlock(procs, p, b, Fresh);
    UpdateUsed(buf, c.at, l.Place(), |c.disk|, procs, ptr, c.buf, c.at, p, q, b, ptr[b]);
    assert ptr[b := ptr[b]] == ptr;
    ChangeRef(l.Place(), r, p, b, data);
    return procs[p := q];
  }

  lemma ChangeRef(a: Area, r: Ref, p: nat, b: nat, data: Block)
    requires Goes(a, r, Change(p, b, data)) && CrashRuns.Inv(a, r.w) && r.w.phase.Running? && Drafts(r)
    requires b < |r.w.mem| && b < 0x1_0000_0000 && !a.Holds(b)
    ensures var t := Next(a, r, Change(p, b, data));
            && Drafts(t) && CrashRuns.Inv(a, t.w) && t.w.disk == r.w.disk && t.w.phase == r.w.phase
            && |t.w.mem| == |r.w.mem|
            && forall c: nat :: c < |r.w.mem| ==> Sees(t, c) == if c == b then data else Sees(r, c)
  {
    hide FreshAt, NoneFresh;
    FreshStays(r, p, b);
    if b in ListOf(r) {
      assert CrashRuns.Absorb(r.w.phase.blocks, b as word) == r.w.phase.blocks;
      AfterOne(a, r.w, CrashRuns.Update(b as word, data));
    }
  }

  lemma FreshStays(r: Ref, p: nat, b: nat)
    requires Drafts(r) && p < |r.procs| && r.procs[p].inOp && b in r.procs[p].has
    ensures var procs := r.procs[p := With(r.procs[p], b, Fresh)];
            && FreshAt(procs, b) && (forall c :: c in r.draft ==> FreshAt(procs, c))
            && forall x :: 0 <= x < |procs| && !procs[x].inOp ==> NoneFresh(procs[x])
  {
    var procs := r.procs[p := With(r.procs[p], b, Fresh)];
    assert procs[p].inOp && b in procs[p].has && procs[p].has[b] == Fresh;
    forall c | c in r.draft
      ensures FreshAt(procs, c)
    {
      var x :| 0 <= x < |r.procs| && r.procs[x].inOp && c in r.procs[x].has && r.procs[x].has[c] == Fresh;
      assert procs[x].inOp && c in procs[x].has && procs[x].has[c] == Fresh;
    }
  }

  method DoRecord(l: Log, procs: seq<Proc>, ptr: map<nat, nat>, p: nat, b: nat, ghost r: Ref)
    returns (ok: bool, procs': seq<Proc>)
    requires Agrees(l, r, ptr) && r.procs == procs && Goes(l.Place(), r, Record(p, b))
    modifies l`n, l`block, l.cache`buf, l.cache`pinned
    ensures (ok <==> !old(Stuck(l, Record(p, b)))) && (!ok ==> Stuck(l, Record(p, b)))
    ensures ok ==>
              Agrees(l, Next(l.Place(), r, Record(p, b)), ptr) && procs' == Next(l.Place(), r, Record(p, b)).procs
  {
    hide Listed, Linked, Written, Sound, Users, Taken, Exclusive, Used, CrashRuns.Inv, Drafts, SameBut, HasSpare,
         Indexed, Vals, Issuing, ApplyAll, Open, BlockSet, NoRepeats;
    var c := l.cache;
    PhaseMeans(l, r);
    OpenRunning(l, r, p);
    IndexedOf(c);
    HasBlock(c.buf, c.at, l.Place(), |c.disk|, procs, ptr, p, b);
    ghost var buf, blocks := c.buf, l.Blocks();
    ok := l.LogWrite(ptr[b]);
    if !ok {
      return false, procs;
    }
    IndexedOf(c);
    var q := With(procs[p], b, Holding);
    KeepsBlock(procs, p, b, Holding);
    UpdateUsed(buf, c.at, l.Place(), |c.disk|, procs, ptr, c.buf, c.at, p, q, b, ptr[b]);
    assert ptr[b := ptr[b]] == ptr;
    assert l.Blocks() == CrashRuns.Absorb(blocks, b as word);
    RecordRef(l.Place(), r, p, b);
    return true, procs[p := q];
  }

  lemma RecordRef(a: Area, r: Ref, p: nat, b: nat)
    requires Goes(a, r, Record(p, b)) && CrashRuns.Inv(a, r.w) && r.w.phase.Running? && Drafts(r)
    requires b < |r.w.mem| && b < 0x1_0000_0000 && a.Fits(r.w.disk, CrashRuns.Absorb(r.w.phase.blocks, b as word))
    ensures var t := Next(a, r, Record(p, b));
            && Drafts(t) && CrashRuns.Inv(a, t.w) && t.w.disk == r.w.disk && |t.w.mem| == |r.w.mem|
            && t.w.phase == CrashRuns.Running(CrashRuns.Absorb(r.w.phase.blocks, b as word))
            && forall c: nat :: c < |r.w.mem| ==> Sees(t, c) == Sees(r, c)
  {
    hide Drafts, FreshAt;
    var ev := CrashRuns.Update(b as word, Sees(r, b));
    AfterOne(a, r.w, ev);
    hide CrashRuns.Inv, CrashRuns.Enabled;
    RecordDrafts(r, Next(a, r, Record(p, b)), p, b);
  }

  lemma RecordDrafts(r: Ref, t: Ref, p: nat, b: nat)
    requires Drafts(r) && p < |r.procs| && r.procs[p].inOp && r.w.phase.Running? && b < 0x1_0000_0000
    requires t.procs == r.procs[p := With(r.procs[p], b, Holding)] && t.draft == r.draft - {b}
    requires t.w.phase == CrashRuns.Running(CrashRuns.Absorb(r.w.phase.blocks, b as word))
    ensures Drafts(t)
  {
    forall c | c in t.draft
      ensures FreshAt(t.procs, c)
    {
      assert FreshAt(r.procs, c);
      var x :| 0 <= x < |r.procs| && r.procs[x].inOp && c in r.procs[x].has && r.procs[x].has[c] == Fresh;
      assert t.procs[x].inOp && c in t.procs[x].has && t.procs[x].has[c] == Fresh;
    }
  }

  /** brelse of a block that is on disk or pinned. */
  method ReleaseBlock(c: Bcache, ghost a: Area, procs: seq<Proc>, ptr: map<nat, nat>, p: nat, b: nat)
    returns (procs': seq<Proc>)
    requires c.Valid() && Used(c.buf, c.at, a, |c.disk|, procs, ptr) && p < |procs| && Holds(procs[p], b)
    requires b in c.pinned || (b < |c.disk| && c.view[b] == c.disk[b])
    modifies c`buf, c`next, c`prev, c`lru
    ensures c.Valid() && Used(c.buf, c.at, a, |c.disk|, procs', ptr) && Open(procs') == Open(procs)
    ensures procs' == procs[p := Proc(procs[p].inOp, procs[p].has - {b})]
  {
    hide Listed, Linked, Written, Sound, Users, Taken, Exclusive, Used, SameBut, HasSpare, Indexed, Open;
    IndexedOf(c);
    HasBlock(c.buf, c.at, a, |c.disk|, procs, ptr, p, b);
    ghost var buf := c.buf;
    var q := Proc(procs[p].inOp, procs[p].has - {b});
    GivesBlock(procs, p, b);
    HeldPinned(c, ptr[b]);
    HeldView(c, ptr[b]);
    c.Brelse(ptr[b]);
    IndexedOf(c);
    UpdateUsed(buf, c.at, a, |c.disk|, procs, ptr, c.buf, c.at, p, q, b, ptr[b]);
    assert ptr[b := ptr[b]] == ptr;
    return procs[p := q];
  }

  method DoRelease(l: Log, procs: seq<Proc>, ptr: map<nat, nat>, p: nat, b: nat, ghost r: Ref)
    returns (procs': seq<Proc>)
    requires Agrees(l, r, ptr) && r.procs == procs && Goes(l.Place(), r, Release(p, b))
    modifies l.cache`buf, l.cache`next, l.cache`prev, l.cache`lru
    ensures Agrees(l, Next(l.Place(), r, Release(p, b)), ptr) && procs' == Next(l.Place(), r, Release(p, b)).procs
  {
    hide Listed, Linked, Written, Sound, Users, Taken, Exclusive, Used, CrashRuns.Inv, Drafts, SameBut, HasSpare,
         Vals, Issuing, ApplyAll, Open, BlockSet, NoRepeats;
    PhaseMeans(l, r);
    IndexedOf(l.cache);
    HasBlock(l.cache.buf, l.cache.at, l.Place(), |l.cache.disk|, procs, ptr, p, b);
    NotFresh(r, p, b);
    if b !in l.cache.pinned {
      HomeClean(l, r, b);
    }
    GivesBlock(procs, p, b);
    StillDrafts(r, p, Proc(procs[p].inOp, procs[p].has - {b}), b);
    procs' := ReleaseBlock(l.cache, l.Place(), procs, ptr, p, b);
  }

  lemma HeldView(c: Bcache, i: nat)
    requires c.Valid() && c.Held(i)
    ensures c.buf[i].blockno < |c.view| && c.buf[i].data == c.view[c.buf[i].blockno]
  {
    assert BufOk(c.buf[i], c.Abs());
  }

  lemma GivesBlock(procs: seq<Proc>, p: nat, b: nat)
    requires Exclusive(procs) && p < |procs| && Holds(procs[p], b)
    ensures var q := Proc(procs[p].inOp, procs[p].has - {b});
            && SameBut(procs[p], q, b) && Exclusive(procs[p := q]) && Open(procs[p := q]) == Open(procs)
            && Users(procs[p := q], b) + 1 == Users(procs, b) && !Taken(procs[p := q], b)
  {
    hide Users, Open;
    var q := Proc(procs[p].inOp, procs[p].has - {b});
    var r := procs[p := q];
    UsersUpdate(procs, p, q, b);
    OpenUpdate(procs, p, q);
    assert q.has - {b} == procs[p].has - {b};
    forall x, c: nat | 0 <= x < |r| && Holds(r[x], c)
      ensures c != b && Holds(procs[x], c)
    {
      assert x != p ==> Holds(procs[x], c);
    }
  }

  /** Who holds a block without having changed it finds nothing unrecorded there. */
  lemma NotFresh(r: Ref, p: nat, b: nat)
    requires Drafts(r) && Exclusive(r.procs) && p < |r.procs| && b in r.procs[p].has && r.procs[p].has[b] == Holding
    ensures b !in r.draft
  {
    if b in r.draft {
      assert FreshAt(r.procs, b);
      var x :| 0 <= x < |r.procs| && r.procs[x].inOp && b in r.procs[x].has && r.procs[x].has[b] == Fresh;
      assert Holds(r.procs[x], b) && Holds(r.procs[p], b);
      assert false;
    }
  }

  lemma UsedInOp(buf: seq<Buf>, at: map<nat, nat>, a: Area, size: nat, procs: seq<Proc>, ptr: map<nat, nat>, p: nat,
                 inOp: bool)
    requires Used(buf, at, a, size, procs, ptr) && p < |procs|
    ensures Used(buf, at, a, size, procs[p := Proc(inOp, procs[p].has)], ptr)
    ensures Open(procs[p := Proc(inOp, procs[p].has)]) + One(procs[p].inOp) == Open(procs) + One(inOp)
  {
    hide Users, Open, Taken, HasIt;
    var q := Proc(inOp, procs[p].has);
    var procs' := procs[p := q];
    OpenUpdate(procs, p, q);
    forall i | 0 <= i < |buf|
      ensures BufUsed(buf[i], procs')
    {
      UsersUpdate(procs, p, q, buf[i].blockno);
      TakenUpdate(procs, p, q, buf[i].blockno);
    }
    forall r, c: nat | 0 <= r < |procs'|
      ensures HasIt(procs'[r], c, at, a, size, ptr)
    {
      HasItInOp(procs[r], procs'[r], c, at, a, size, ptr);
    }
    forall x, y, c: nat | 0 <= x < |procs'| && 0 <= y < |procs'| && Holds(procs'[x], c) && Holds(procs'[y], c)
      ensures x == y
    {
      assert Holds(procs[x], c) && Holds(procs[y], c);
    }
  }

  lemma HasItInOp(q: Proc, q': Proc, c: nat, at: map<nat, nat>, a: Area, size: nat, ptr: map<nat, nat>)
    requires q'.has == q.has && HasIt(q, c, at, a, size, ptr)
    ensures HasIt(q', c, at, a, size, ptr)
  {
  }

  method DoBegin(l: Log, procs: seq<Proc>, ptr: map<nat, nat>, p: nat, ghost r: Ref)
    returns (x: Answer, procs': seq<Proc>)
    requires Agrees(l, r, ptr) && r.procs == procs && Goes(l.Place(), r, Begin(p))
    modifies l`outstanding
    ensures Agrees(l, Next(l.Place(), r, Begin(p)), ptr) && procs' == Next(l.Place(), r, Begin(p)).procs
    ensures x == Reply(l.Place(), r, Begin(p))
  {
    hide Listed, Linked, Written, Sound, Users, Taken, Exclusive, Used, CrashRuns.Inv, HasSpare, Indexed, Vals,
         Issuing, ApplyAll, Open, BlockSet, NoRepeats;
    PhaseMeans(l, r);
    UsedInOp(l.cache.buf, l.cache.at, l.Place(), |l.cache.disk|, procs, ptr, p, true);
    DraftsInOp(r, p, true);
    var admitted := l.BeginOp();
    if admitted {
      return Silent, procs[p := Proc(true, procs[p].has)];
    }
    return Sleeps, procs;
  }

  lemma DraftsInOp(r: Ref, p: nat, inOp: bool)
    requires Drafts(r) && p < |r.procs| && NoneFresh(r.procs[p])
    ensures Drafts(r.(procs := r.procs[p := Proc(inOp, r.procs[p].has)]))
  {
    var procs := r.procs[p := Proc(inOp, r.procs[p].has)];
    forall c | c in r.draft
      ensures FreshAt(procs, c)
    {
      var x :| 0 <= x < |r.procs| && r.procs[x].inOp && c in r.procs[x].has && r.procs[x].has[c] == Fresh;
      assert procs[x].inOp && c in procs[x].has && procs[x].has[c] == Fresh;
    }
  }

  /* ---- the end of an operation, and the commit ---- */

  /** With no operation open but this one, which has recorded everything, nothing is unrecorded. */
  lemma NothingOpen(r: Ref, p: nat)
    requires Drafts(r)
    requires Open(r.procs) == 0 || (p < |r.procs| && r.procs[p].inOp && Open(r.procs) == 1 && NoneFresh(r.procs[p]))
    ensures r.draft == map[]
  {
    hide Open;
    forall b | b in r.draft
      ensures false
    {
      assert FreshAt(r.procs, b);
      var x :| 0 <= x < |r.procs| && r.procs[x].inOp && b in r.procs[x].has && r.procs[x].has[b] == Fresh;
      SomeOpen(r.procs, x);
      OpenUpdate(r.procs, p, Proc(false, r.procs[p].has));
      SomeOpen(r.procs[p := Proc(false, r.procs[p].has)], x);
    }
  }

  method DoEnd(l: Log, procs: seq<Proc>, ptr: map<nat, nat>, p: nat, ghost r: Ref) returns (procs': seq<Proc>)
    requires Agrees(l, r, ptr) && r.procs == procs && Goes(l.Place(), r, End(p))
    modifies l`outstanding, l`committing, l`done, l`base, l`seen, l`before
    ensures Agrees(l, Next(l.Place(), r, End(p)), ptr) && procs' == Next(l.Place(), r, End(p)).procs
  {
    hide Listed, Linked, Written, Sound, Users, Taken, Exclusive, Used, CrashRuns.Inv, HasSpare, Indexed, Issuing,
         ApplyAll, Open, BlockSet, NoRepeats, Drafts, NoneFresh, Calm;
    PhaseMeans(l, r);
    OpenRunning(l, r, p);
    UsedInOp(l.cache.buf, l.cache.at, l.Place(), |l.cache.disk|, procs, ptr, p, false);
    DraftsInOp(r, p, false);
    if l.outstanding == 1 {
      NothingOpen(r, p);
      CalmNow(l, r, ptr);
    }
    var commits := l.Leave();
    if commits {
      SameVals(l.Place(), r, l.seen, l.Blocks());
      AfterOne(l.Place(), r.w, CrashRuns.StartCommit);
      DraftsCommit(Next(l.Place(), r, End(p)), r.(procs := procs[p := Proc(false, procs[p].has)]));
    }
    return procs[p := Proc(false, procs[p].has)];
  }

  lemma SameVals(a: Area, r: Ref, view: Disk, blocks: seq<word>)
    requires Views(a, r, view) && r.draft == map[] && a.Fits(view, blocks)
    ensures |r.w.mem| == |view| && Vals(r.w.mem, blocks) == Vals(view, blocks)
  {
    forall t | 0 <= t < |blocks|
      ensures r.w.mem[blocks[t]] == view[blocks[t]]
    {
      assert Sees(r, blocks[t] as nat) == view[blocks[t]];
    }
  }

  lemma DraftsCommit(t: Ref, r: Ref)
    requires Drafts(r) && r.draft == map[] && t.draft == map[] && t.procs == r.procs
    ensures Drafts(t)
  {
  }

  /** What the processes see of home blocks does not change while a commit goes on. */
  lemma HomeKept(l: Log)
    requires l.Underway()
    ensures SameHome(l.Place(), l.cache.view, l.seen)
  {
    hide Sound, Listed, Linked, Written, BlockSet, NoRepeats, Empty, WritesOf, ApplyAll;
    var a, blocks := l.Place(), l.Blocks();
    CommitHarmless(a, l.base, l.seen, blocks, l.done);
    HarmlessHome(a, l.seen, l.Ws()[..l.done]);
  }

  /** Every write goes to the log area or puts there what is there. */
  ghost predicate Harmless(a: Area, v: Disk, ws: seq<Write>) {
    forall t :: 0 <= t < |ws| ==> a.Holds(ws[t].blockno) || (ws[t].blockno < |v| && ws[t].data == v[ws[t].blockno])
  }

  lemma CommitHarmless(a: Area, d: Disk, v: Disk, blocks: seq<word>, k: nat)
    requires 0 < a.size && a.Fits(v, blocks) && |d| == |v| && k <= 2 * |blocks| + 2
    ensures |WritesOf(a, d, v, blocks)| == 2 * |blocks| + 2 && Harmless(a, v, WritesOf(a, d, v, blocks)[..k])
  {
    hide PutHeader;
  }

  lemma {:induction false} HarmlessHome(a: Area, v: Disk, ws: seq<Write>)
    requires InRange(v, ws) && Harmless(a, v, ws)
    ensures SameHome(a, ApplyAll(v, ws), v)
    decreases |ws|
  {
    if ws != [] {
      var front := ws[..|ws| - 1];
      HarmlessHome(a, v, front);
      assert ws == front + [ws[|ws| - 1]];
      ApplySnoc(v, front, ws[|ws| - 1]);
    }
  }

  /** The commit waits exactly if a process holds the block that it has come to. */
  lemma WayBlocked(l: Log, r: Ref, ptr: map<nat, nat>)
    requires Agrees(l, r, ptr) && r.w.phase.Committing?
    ensures l.Blocked() <==> InTheWay(r)
  {
    hide Listed, Linked, Written, PutHeader, BlockSet, NoRepeats, Empty, CommitWrites, ApplyAll, Users, Taken, Used,
         CrashRuns.Inv, Drafts, Unlocked, Sound;
    var n, k, blocks := l.n, l.done, l.Blocks();
    if k < n {
      ListedAt(l.Place(), l.cache.disk, blocks, k);
      LockedIffTaken(l.cache, l.Place(), r.procs, ptr, blocks[k]);
    } else if n < k <= 2 * n {
      BlockSetTail(blocks, k - n - 1);
      LockedIffTaken(l.cache, l.Place(), r.procs, ptr, blocks[k - n - 1]);
    }
  }

  lemma LockedIffTaken(c: Bcache, a: Area, procs: seq<Proc>, ptr: map<nat, nat>, b: nat)
    requires c.Valid() && b in c.pinned && Used(c.buf, c.at, a, |c.disk|, procs, ptr)
    ensures Unlocked(c.buf, b) <==> !Taken(procs, b)
  {
    hide Users, Taken, Exclusive, Listed, Linked, Written;
    assert BufUsed(c.buf[c.at[b]], procs);
  }

  method DoCommit(l: Log, procs: seq<Proc>, ptr: map<nat, nat>, ghost r: Ref) returns (ok: bool, x: Answer)
    requires Agrees(l, r, ptr) && r.procs == procs && Goes(l.Place(), r, CommitStep)
    modifies l`n, l`done, l`committing, l.cache
    ensures (ok <==> !old(Stuck(l, CommitStep))) && (!ok ==> Stuck(l, CommitStep) && l.cache.disk == old(l.cache.disk))
    ensures ok ==>
              && Agrees(l, Next(l.Place(), r, CommitStep), ptr) && procs == Next(l.Place(), r, CommitStep).procs
              && x == Reply(l.Place(), r, CommitStep)
  {
    hide Listed, Linked, Written, Sound, Users, Taken, Exclusive, Used, CrashRuns.Inv, HasSpare, Indexed, CommitWrites,
         ApplyAll, Open, BlockSet, NoRepeats, Drafts, Calm, Empty, Log.Blocked, InTheWay, SameUsers, WritesOf;
    var c := l.cache;
    PhaseMeans(l, r);
    NothingOpen(r, 0);
    CalmNow(l, r, ptr);
    WayBlocked(l, r, ptr);
    HomeKept(l);
    ghost var buf, at, s, ws := c.buf, c.at, c.Abs(), l.Ws();
    var step := l.CommitStep();
    if step.Stops? {
      return false, Skipped;
    }
    CommitUsed(buf, at, l.Place(), |c.disk|, procs, ptr, c.buf, c.at, s, c.Abs());
    if step.Went? {
      WritesAre(l.Place(), r.w.phase.base, l.seen, r.w.phase.blocks);
      CommitRef(l.Place(), r, ws);
      assert ws[..|ws|] == ws;
      if l.committing {
        HomeKept(l);
      } else {
        assert l.Blocks() == [];
      }
      HomeViews(l.Place(), r, Next(l.Place(), r, CommitStep), s.view, l.seen, c.view);
      DraftsCommit(Next(l.Place(), r, CommitStep), r);
    }
    return true, if step.Waits? then Sleeps else Silent;
  }

  lemma WritesAre(a: Area, base: Disk, seen: Disk, blocks: seq<word>)
    requires a.Fits(base, blocks) && |base| == |seen|
    ensures WritesOf(a, base, seen, blocks) == CommitWrites(a, base[a.start], blocks, Vals(seen, blocks))
  {
    hide CommitWrites;
  }

  lemma HomeViews(a: Area, r: Ref, t: Ref, v: Disk, seen: Disk, v': Disk)
    requires Views(a, r, v) && SameHome(a, v, seen) && SameHome(a, v', seen) && t.w.mem == r.w.mem && t.draft == r.draft
    ensures Views(a, t, v')
  {
    forall b: nat | b < |v'| && !a.Holds(b)
      ensures Sees(t, b) == v'[b]
    {
      assert Sees(r, b) == v[b];
    }
  }

  lemma CommitRef(a: Area, r: Ref, ws: seq<Write>)
    requires CrashRuns.Inv(a, r.w) && r.w.phase.Committing? && !InTheWay(r)
    requires r.w.phase.done < 2 * |r.w.phase.blocks| + 2
    requires ws == CommitWrites(a, r.w.phase.base[a.start], r.w.phase.blocks, r.w.phase.vals)
    ensures var t, p := Next(a, r, CommitStep).w, r.w.phase;
            && CrashRuns.Inv(a, t) && t.mem == r.w.mem && |ws| == 2 * |p.blocks| + 2 && InRange(p.base, ws)
            && t.disk == ApplyAll(p.base, ws[..p.done + 1])
            && t.phase == if p.done + 1 < 2 * |p.blocks| + 2
                          then CrashRuns.Committing(p.base, p.blocks, p.vals, p.done + 1)
                          else CrashRuns.Running([])
  {
    hide CommitWrites, ApplyAll;
    var p := r.w.phase;
    CommitInRange(a, p.base, p.base[a.start], p.blocks, p.vals);
    ApplyNext(p.base, ws, p.done);
    AfterOne(a, r.w, CrashRuns.CommitWrite);
    if p.done + 1 == 2 * |p.blocks| + 2 {
      var w := CrashRuns.Next(a, r.w, CrashRuns.CommitWrite);
      AfterOne(a, w, CrashRuns.EndCommit);
      assert [CrashRuns.CommitWrite, CrashRuns.EndCommit][1..] == [CrashRuns.EndCommit];
    }
  }

  /* ---- every run ---- */

  ghost function Exec(a: Area, r: Ref, moves: seq<Move>): (t: Ref) {
    if moves == [] then r else Next(a, Exec(a, r, moves[..|moves| - 1]), moves[|moves| - 1])
  }

  ghost function Answers(a: Area, r: Ref, moves: seq<Move>): (xs: seq<Answer>)
    ensures |xs| == |moves|
  {
    if moves == [] then []
    else
      var front := moves[..|moves| - 1];
      Answers(a, r, front) + [Reply(a, Exec(a, r, front), moves[|moves| - 1])]
  }

  /** The events that are possible one after the other. */
  ghost function Applied(a: Area, w: CrashRuns.World, evs: seq<CrashRuns.Event>): (r: seq<CrashRuns.Event>)
    decreases |evs|
  {
    if evs != [] && CrashRuns.Inv(a, w) && CrashRuns.Enabled(a, w, evs[0])
    then [evs[0]] + Applied(a, CrashRuns.Next(a, w, evs[0]), evs[1..])
    else []
  }

  /** The run of `CrashRuns` behind the moves. */
  ghost function Trace(a: Area, r: Ref, moves: seq<Move>): (evs: seq<CrashRuns.Event>) {
    if moves == [] then []
    else
      var front := moves[..|moves| - 1];
      var t := Exec(a, r, front);
      Trace(a, r, front) + Applied(a, t.w, Events(a, t, moves[|moves| - 1]))
  }

  lemma {:induction false} AppliedRuns(a: Area, w: CrashRuns.World, evs: seq<CrashRuns.Event>,
                                       more: seq<CrashRuns.Event>)
    requires CrashRuns.Inv(a, w) && w.phase == CrashRuns.Running([]) && CrashRuns.Possible(a, w, evs)
    ensures var u := CrashRuns.Exec(a, w, evs);
            && CrashRuns.Possible(a, w, evs + Applied(a, u, more))
            && CrashRuns.Exec(a, w, evs + Applied(a, u, more)) == After(a, u, more)
    decreases |more|
  {
    hide CrashRuns.Inv, CrashRuns.Enabled, CrashRuns.Next;
    var u := CrashRuns.Exec(a, w, evs);
    if more != [] && CrashRuns.Inv(a, u) && CrashRuns.Enabled(a, u, more[0]) {
      CrashRuns.RunsExtend(a, w, evs, more[0]);
      var evs' := evs + [more[0]];
      assert evs'[..|evs'| - 1] == evs;
      AppliedRuns(a, w, evs', more[1..]);
      var rest := Applied(a, CrashRuns.Next(a, u, more[0]), more[1..]);
      assert evs' + rest == evs + ([more[0]] + rest);
    } else {
      assert evs + [] == evs;
    }
  }

  lemma {:induction false} TraceRuns(a: Area, r: Ref, moves: seq<Move>)
    requires CrashRuns.Inv(a, r.w) && r.w.phase == CrashRuns.Running([])
    ensures CrashRuns.Possible(a, r.w, Trace(a, r, moves))
    ensures CrashRuns.Exec(a, r.w, Trace(a, r, moves)) == Exec(a, r, moves).w
    decreases |moves|
  {
    hide CrashRuns.Inv, Next, Events;
    if moves != [] {
      var front := moves[..|moves| - 1];
      TraceRuns(a, r, front);
      var t, m := Exec(a, r, front), moves[|moves| - 1];
      AppliedRuns(a, r.w, Trace(a, r, front), Events(a, t, m));
      NextWorld(a, t, m);
    }
  }

  lemma NextWorld(a: Area, r: Ref, m: Move)
    ensures Next(a, r, m).w == After(a, r.w, Events(a, r, m))
  {
  }

  /** One move. */
  method Do(l: Log, procs: seq<Proc>, ptr: map<nat, nat>, m: Move, ghost r: Ref)
    returns (ok: bool, x: Answer, procs': seq<Proc>, ptr': map<nat, nat>)
    requires Agrees(l, r, ptr) && r.procs == procs && Goes(l.Place(), r, m)
    modifies l, l.cache
    ensures (ok <==> !old(Stuck(l, m))) && (!ok ==> Stuck(l, m) && l.cache.disk == old(l.cache.disk))
    ensures ok ==>
              && Agrees(l, Next(l.Place(), r, m), ptr') && procs' == Next(l.Place(), r, m).procs
              && x == Reply(l.Place(), r, m)
  {
    hide Agrees, Next, HasSpare;
    ok, x, procs', ptr' := true, Silent, procs, ptr;
    match m
    case Begin(p) => x, procs' := DoBegin(l, procs, ptr, p, r);
    case Read(p, b) => ok, x, procs', ptr' := DoRead(l, procs, ptr, p, b, r);
    case Wake(p, b) => x, procs' := DoWake(l, procs, ptr, p, b, r);
    case Change(p, b, data) => procs' := DoChange(l, procs, ptr, p, b, data, r);
    case Record(p, b) => ok, procs' := DoRecord(l, procs, ptr, p, b, r);
    case Release(p, b) => procs' := DoRelease(l, procs, ptr, p, b, r);
    case End(p) => procs' := DoEnd(l, procs, ptr, p, r);
    case CommitStep =>
      ok, x := DoCommit(l, procs, ptr, r);
      procs' := if ok then procs else [];
  }

  /** Nobody has begun anything. */
  ghost function First(n: nat, disk: Disk): (r: Ref) {
    Ref(seq(n, _ => Proc(false, map[])), CrashRuns.World(disk, disk, CrashRuns.Running([])), map[])
  }

  lemma {:induction false} NoUsers(procs: seq<Proc>, b: nat)
    requires forall p :: 0 <= p < |procs| ==> procs[p] == Proc(false, map[])
    ensures Users(procs, b) == 0 && Open(procs) == 0 && !Taken(procs, b)
  {
    if procs != [] {
      NoUsers(procs[1..], b);
    }
  }

  lemma FirstAgrees(l: Log, n: nat)
    requires l.Valid() && l.n == 0 && l.outstanding == 0 && !l.committing && Idle(l.cache.buf)
    ensures Agrees(l, First(n, l.cache.disk), map[])
  {
    hide Users, Taken, Open, Listed, Linked, Written;
    var c, r := l.cache, First(n, l.cache.disk);
    assert l.Blocks() == [];
    NoBlocks();
    IdleCalm(c, l.Place());
    AllClean(c, l.Place());
    NoUsers(r.procs, 0);
    forall i | 0 <= i < |c.buf|
      ensures BufUsed(c.buf[i], r.procs)
    {
      NoUsers(r.procs, c.buf[i].blockno);
      assert BufOk(c.buf[i], c.Abs());
    }
  }

  lemma AgreesMeans(l: Log, r: Ref, ptr: map<nat, nat>)
    requires Agrees(l, r, ptr)
    ensures r.w.disk == l.cache.disk && l.committing == r.w.phase.Committing?
  {
    hide CrashRuns.Inv, Used, Drafts, Views;
  }

  /** Whenever the machine stops, recovery finds the reference store of the run. */
  ghost predicate Survives(a: Area, r: Ref, moves: seq<Move>, disk: Disk)
    requires CrashRuns.Possible(a, r.w, Trace(a, r, moves))
  {
    Recoverable(a, disk) && SameHome(a, Recovered(a, disk), CrashRuns.Reference(a, r.w, Trace(a, r, moves)))
  }

  lemma Surviving(a: Area, r: Ref, moves: seq<Move>)
    requires CrashRuns.Inv(a, r.w) && r.w.phase == CrashRuns.Running([])
    ensures CrashRuns.Possible(a, r.w, Trace(a, r, moves)) && Survives(a, r, moves, Exec(a, r, moves).w.disk)
  {
    hide CrashRuns.Inv, Exec, Trace;
    TraceRuns(a, r, moves);
    CrashRuns.CrashAtomicity(a, r.w, Trace(a, r, moves));
  }

  /**
  Any sequence of moves of n processes and of the committer, from a log that has just been recovered: the
  answers and the disk are those of the reference, up to the end or to the first panic, and wherever the
  machine stops, recovery finds the reference store.
  */
  method Run(l: Log, n: nat, moves: seq<Move>)
    returns (done: nat, answers: seq<Answer>, procs: seq<Proc>, ptr: map<nat, nat>)
    requires l.Valid() && l.n == 0 && l.outstanding == 0 && !l.committing && Idle(l.cache.buf)
    modifies l, l.cache
    ensures done <= |moves|
    ensures var a, r := l.Place(), First(n, old(l.cache.disk));
            && answers == Answers(a, r, moves[..done]) && l.cache.disk == Exec(a, r, moves[..done]).w.disk
            && (done == |moves| ==> Agrees(l, Exec(a, r, moves), ptr) && procs == Exec(a, r, moves).procs)
            && (done < |moves| ==> Goes(a, Exec(a, r, moves[..done]), moves[done]) && Stuck(l, moves[done]))
            && CrashRuns.Possible(a, r.w, Trace(a, r, moves[..done])) && Survives(a, r, moves[..done], l.cache.disk)
  {
    hide Agrees, Next, Stuck, Reply, Legal, CrashRuns.Inv, Survives, Trace;
    ghost var a, r := l.Place(), First(n, l.cache.disk);
    FirstAgrees(l, n);
    FirstInv(l, n);
    done, answers, procs, ptr := 0, [], seq(n, _ => Proc(false, map[])), map[];
    while done < |moves|
      invariant done <= |moves| && answers == Answers(a, r, moves[..done])
      invariant Agrees(l, Exec(a, r, moves[..done]), ptr) && procs == Exec(a, r, moves[..done]).procs
    {
      ghost var t := Exec(a, r, moves[..done]);
      AgreesMeans(l, t, ptr);
      assert moves[..done + 1][..done] == moves[..done];
      if Legal(Area(l.start, l.size), procs, |l.cache.disk|, l.committing, moves[done]) {
        var ok, x, procs', ptr' := Do(l, procs, ptr, moves[done], t);
        if !ok {
          Surviving(a, r, moves[..done]);
          return;
        }
        answers, procs, ptr := answers + [x], procs', ptr';
      } else {
        SkipsMove(a, t, moves[done]);
        answers := answers + [Skipped];
      }
      done := done + 1;
    }
    assert moves[..done] == moves;
    AgreesMeans(l, Exec(a, r, moves), ptr);
    Surviving(a, r, moves);
  }

  lemma FirstInv(l: Log, n: nat)
    requires Agrees(l, First(n, l.cache.disk), map[])
    ensures CrashRuns.Inv(l.Place(), First(n, l.cache.disk).w)
  {
    hide CrashRuns.Inv, Used, Drafts, Views;
  }

  lemma SkipsMove(a: Area, r: Ref, m: Move)
    requires !Goes(a, r, m)
    ensures Next(a, r, m) == r && Reply(a, r, m) == Skipped
  {
  }
}

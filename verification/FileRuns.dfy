/**
Files against their reference: byte sequences, the slots they fill and a count of free blocks.
Whatever sequence of reads, writes and truncations is carried out on the volume, it stops exactly
where the reference runs out of blocks, the replies and the final contents are those of the
reference, no block is lost, no file without holes gets one, and the inodes on disk keep up with
those in memory.
*/
module FileRuns {
  import opened Prelude
  import opened Blocks
  import opened Ownership
  import opened Space
  import opened FileWrites
  import opened Inodes

  datatype Op =
    | WriteOp(inum: nat, src: seq<byte>, off: nat)
    | ReadOp(inum: nat, off: nat, n: nat, open: bool)
    | TruncOp(inum: nat)

  datatype Reply = Count(n: nat) | Bytes(s: seq<byte>) | Error | Silent

  /** Writing and truncating are done inside an operation of the log; reading may be outside, as in fileread. */
  predicate Open(op: Op) {
    op.ReadOp? ==> op.open
  }

  /** The arguments are 32-bit numbers and name an inode. */
  predicate WellFormed(op: Op, count: nat) {
    && op.inum < count
    && (op.WriteOp? ==> op.off < 0x1_0000_0000 && |op.src| < 0x1_0000_0000)
    && (op.ReadOp? ==> op.off < 0x1_0000_0000 && op.n < 0x1_0000_0000)
  }

  predicate InRange(ops: seq<Op>, count: nat) {
    forall k :: 0 <= k < |ops| ==> WellFormed(ops[k], count)
  }

  /* ---- the reference ---- */

  /** A file is its bytes and the slots of its inode that hold a block. */
  datatype File = File(content: seq<byte>, slots: set<nat>)

  datatype Store = Store(files: seq<File>, free: nat)

  predicate Rejected(c: seq<byte>, op: Op) {
    match op
    case WriteOp(_, src, off) => off > |c| || off + |src| > MAXFILE * BSIZE
    case ReadOp(_, off, n, _) => off > |c| || off + n >= 0x1_0000_0000
    case TruncOp(_) => false
  }

  /** The slots that an operation passes through. */
  function Uses(c: seq<byte>, op: Op): (r: set<nat>) {
    if Rejected(c, op) then {} else
    match op
    case WriteOp(_, src, off) => Wanted(off, |src|)
    case ReadOp(_, off, n, _) => Wanted(off, Min(n, |c| - off))
    case TruncOp(_) => {}
  }

  function Lacks(f: File, op: Op): (n: nat) {
    |Uses(f.content, op) - f.slots|
  }

  function Effect(f: File, op: Op): (r: File) {
    if Rejected(f.content, op) then f else
    match op
    case WriteOp(_, src, off) => File(Splice(f.content, off, src), f.slots + Uses(f.content, op))
    case ReadOp(_, _, _, _) => File(f.content, f.slots + Uses(f.content, op))
    case TruncOp(_) => File([], {})
  }

  function Answer(c: seq<byte>, op: Op): (r: Reply) {
    if Rejected(c, op) then Error else
    match op
    case WriteOp(_, src, _) => Count(|src|)
    case ReadOp(_, off, n, _) => Bytes(c[off..off + Min(n, |c| - off)])
    case TruncOp(_) => Silent
  }

  /** The blocks that the operation lacks can be had. */
  predicate Fits(s: Store, op: Op)
    requires op.inum < |s.files|
  {
    Payable(Open(op), s.free, Lacks(s.files[op.inum], op))
  }

  function Apply(s: Store, op: Op): (r: Store)
    requires op.inum < |s.files| && Fits(s, op)
    ensures |r.files| == |s.files|
  {
    var f := s.files[op.inum];
    Store(s.files[op.inum := Effect(f, op)], if op.TruncOp? then s.free + |f.slots| else s.free - Lacks(f, op))
  }

  /** How far a run has come: `ok` is false when an operation did not fit. */
  datatype Progress = Progress(store: Store, replies: seq<Reply>, ok: bool)

  function Exec(s: Store, ops: seq<Op>): (r: Progress)
    requires InRange(ops, |s.files|)
    ensures |r.store.files| == |s.files| && |r.replies| <= |ops| && (r.ok <==> |r.replies| == |ops|)
  {
    if ops == [] then Progress(s, [], true) else
    var p, op := Exec(s, ops[..|ops| - 1]), ops[|ops| - 1];
    if p.ok && Fits(p.store, op) then
      Progress(Apply(p.store, op), p.replies + [Answer(p.store.files[op.inum].content, op)], true)
    else p.(ok := false)
  }

  /** A run that stops does so at its first operation that does not fit, and has answered all before it. */
  lemma {:induction false} StopsAtFirst(s: Store, ops: seq<Op>)
    requires InRange(ops, |s.files|) && !Exec(s, ops).ok
    ensures var k := |Exec(s, ops).replies|;
            && k < |ops| && Exec(s, ops[..k]).ok && !Fits(Exec(s, ops[..k]).store, ops[k])
            && Exec(s, ops).replies == Exec(s, ops[..k]).replies
  {
    var before := ops[..|ops| - 1];
    if !Exec(s, before).ok {
      StopsAtFirst(s, before);
      var k := |Exec(s, before).replies|;
      assert before[..k] == ops[..k] && before[k] == ops[k];
    }
  }

  /* ---- blocks are conserved ---- */

  function Filled(files: seq<File>): (n: nat) {
    if files == [] then 0 else |files[0].slots| + Filled(files[1..])
  }

  lemma {:induction false} FilledUpdate(files: seq<File>, i: nat, f: File)
    requires i < |files|
    ensures Filled(files[i := f]) == Filled(files) - |files[i].slots| + |f.slots|
  {
    if i == 0 {
      assert files[0 := f][1..] == files[1..];
    } else {
      FilledUpdate(files[1..], i - 1, f);
      assert files[i := f][1..] == files[1..][i - 1 := f];
    }
  }

  /** A file gains a slot for every block that it lacked. */
  lemma EffectSlots(f: File, op: Op)
    requires !op.TruncOp?
    ensures |Effect(f, op).slots| == |f.slots| + Lacks(f, op)
  {
    hide Wanted, Splice;
    if Rejected(f.content, op) {
      assert {} - f.slots == {};
    } else {
      assert f.slots + Uses(f.content, op) == f.slots + (Uses(f.content, op) - f.slots);
    }
  }

  lemma ApplyConserves(s: Store, op: Op)
    requires op.inum < |s.files| && Fits(s, op)
    ensures Apply(s, op).free + Filled(Apply(s, op).files) == s.free + Filled(s.files)
  {
    hide Filled, Lacks, Wanted, Splice;
    FilledUpdate(s.files, op.inum, Effect(s.files[op.inum], op));
    if !op.TruncOp? {
      EffectSlots(s.files[op.inum], op);
    }
  }

  /** Over every run, what is free and what the files hold adds up to the same. */
  lemma {:induction false} RunConserves(s: Store, ops: seq<Op>)
    requires InRange(ops, |s.files|)
    ensures Exec(s, ops).store.free + Filled(Exec(s, ops).store.files) == s.free + Filled(s.files)
  {
    if ops != [] {
      RunConserves(s, ops[..|ops| - 1]);
      var p, op := Exec(s, ops[..|ops| - 1]), ops[|ops| - 1];
      if p.ok && Fits(p.store, op) {
        ApplyConserves(p.store, op);
      }
    }
  }

  /* ---- files without holes ---- */

  predicate Solid(s: Store) {
    forall j :: 0 <= j < |s.files| ==> s.files[j].slots == Wanted(0, |s.files[j].content|)
  }

  /** Truncating, reading and overwriting never run out of blocks where there are no holes. */
  lemma SolidFits(s: Store, op: Op)
    requires Solid(s) && op.inum < |s.files|
    requires op.WriteOp? ==> op.off + |op.src| <= |s.files[op.inum].content|
    ensures Fits(s, op)
  {
    var c := s.files[op.inum].content;
    assert Uses(c, op) <= Wanted(0, |c|);
    assert Uses(c, op) - s.files[op.inum].slots == {};
  }

  /** A read outside an operation changes nothing, and stops the kernel exactly if it meets a hole. */
  lemma OutsideRead(s: Store, op: Op)
    requires op.inum < |s.files| && op.ReadOp? && !op.open
    ensures Fits(s, op) <==> Uses(s.files[op.inum].content, op) <= s.files[op.inum].slots
    ensures Fits(s, op) ==> Apply(s, op) == s
  {
    hide Wanted;
    var f := s.files[op.inum];
    NoneOutside(Uses(f.content, op), f.slots);
    if Fits(s, op) {
      assert f.slots + Uses(f.content, op) == f.slots;
      assert s.files[op.inum := f] == s.files;
    }
  }

  lemma NoneOutside(a: set<nat>, b: set<nat>)
    ensures a <= b <==> |a - b| == 0
  {
    if |a - b| == 0 {
      forall x | x in a
        ensures x in b
      {
        assert x !in a - b;
      }
    } else {
      assert a <= b ==> a - b == {};
    }
  }

  /** A write lacks exactly what the longer file wants beyond the shorter one. */
  lemma SolidCost(s: Store, op: Op)
    requires Solid(s) && op.inum < |s.files| && op.WriteOp? && !Rejected(s.files[op.inum].content, op)
    ensures var c := s.files[op.inum].content;
            Lacks(s.files[op.inum], op) == |Wanted(0, Max(|c|, op.off + |op.src|)) - Wanted(0, |c|)|
  {
    var c := s.files[op.inum].content;
    SplicedSlots(|c|, op.off, |op.src|);
    assert Uses(c, op) - Wanted(0, |c|) == Wanted(0, Max(|c|, op.off + |op.src|)) - Wanted(0, |c|);
  }

  lemma SplicedSlots(len: nat, off: nat, n: nat)
    requires off <= len
    ensures Wanted(0, len) + Wanted(off, n) == Wanted(0, Max(len, off + n))
  {
    hide Wanted;
    if off + n <= len {
      WantedSplit(0, off, len - off);
      WantedSplit(off, n, len - off - n);
    } else {
      WantedSplit(0, off, n);
      WantedSplit(0, off, len - off);
      WantedSplit(off, len - off, off + n - len);
    }
  }

  lemma SolidKept(s: Store, op: Op)
    requires Solid(s) && op.inum < |s.files| && Fits(s, op)
    ensures Solid(Apply(s, op))
  {
    hide Wanted;
    var f := s.files[op.inum];
    if !Rejected(f.content, op) {
      match op
      case WriteOp(_, src, off) => SplicedSlots(|f.content|, off, |src|);
      case ReadOp(_, off, n, _) => SplicedSlots(|f.content|, off, Min(n, |f.content| - off));
      case TruncOp(_) => EmptyWanted();
    }
  }

  lemma EmptyWanted()
    ensures Wanted(0, 0) == {}
  {
  }

  lemma {:induction false} RunSolid(s: Store, ops: seq<Op>)
    requires Solid(s) && InRange(ops, |s.files|)
    ensures Solid(Exec(s, ops).store)
  {
    if ops != [] {
      RunSolid(s, ops[..|ops| - 1]);
      var p, op := Exec(s, ops[..|ops| - 1]), ops[|ops| - 1];
      if p.ok && Fits(p.store, op) {
        SolidKept(p.store, op);
      }
    }
  }

  /* ---- the volume ---- */

  ghost predicate Sized(v: Vol, meta: nat) {
    Shape(v, meta) && forall i :: 0 <= i < |v.ino| ==> v.ino[i].size <= MAXFILE * BSIZE && v.ino[i].typ != T_DEV
  }

  ghost function FileAt(v: Vol, meta: nat, i: nat): (f: File)
    requires Sized(v, meta) && i < |v.ino|
  {
    File(Content(v, meta, i), MappedSlots(v, meta, i))
  }

  ghost function StoreOf(v: Vol, meta: nat): (s: Store)
    requires Sized(v, meta)
    ensures |s.files| == |v.ino|
  {
    Store(seq(|v.ino|, i requires 0 <= i < |v.ino| => FileAt(v, meta, i)), |FreeBlocks(v.bitmap)|)
  }

  /** A volume without holes is a store without holes. */
  lemma WholeSolid(v: Vol, meta: nat, dinode: seq<Dinode>)
    requires Sized(v, meta) && Whole(v, meta, dinode)
    ensures Solid(StoreOf(v, meta))
  {
    hide HoleFree, Wanted, MappedSlots, Content, FreeBlocks;
    forall j | 0 <= j < |v.ino|
      ensures MappedSlots(v, meta, j) == Wanted(0, v.ino[j].size)
    {
      HoleFreeSlots(v, meta, j, v.ino[j].size);
    }
  }

  /** No holes anywhere, and every inode on disk is the one in memory. */
  ghost predicate Whole(v: Vol, meta: nat, dinode: seq<Dinode>)
    requires Shape(v, meta)
  {
    dinode == v.ino && forall j :: 0 <= j < |v.ino| ==> HoleFree(v, meta, j, v.ino[j].size)
  }

  lemma WholeKept(v: Vol, d: seq<Dinode>, r: Vol, e: seq<Dinode>, meta: nat, i: nat)
    requires Sized(v, meta) && Whole(v, meta, d) && OthersKept(v, r, meta, i) && i < |v.ino|
    requires Shape(r, meta) && |e| == |r.ino| == |v.ino|
    requires forall j :: 0 <= j < |r.ino| && j != i ==> r.ino[j] == v.ino[j] && e[j] == d[j]
    requires HoleFree(r, meta, i, r.ino[i].size) && e[i] == r.ino[i]
    ensures Whole(r, meta, e)
  {
    hide HoleFree, OthersKept;
    forall j | 0 <= j < |r.ino|
      ensures HoleFree(r, meta, j, r.ino[j].size)
    {
      if j != i {
        OthersHoleFree(v, r, meta, i, j, v.ino[j].size);
      }
    }
  }

  /** Only file i has changed. */
  ghost predicate Step(v: Vol, r: Vol, meta: nat, i: nat) {
    && Sized(v, meta) && Shape(r, meta) && |r.ino| == |v.ino| && i < |v.ino|
    && r.ino[i].typ == v.ino[i].typ && r.ino[i].size <= MAXFILE * BSIZE
    && (forall j :: 0 <= j < |v.ino| && j != i ==> r.ino[j] == v.ino[j])
    && (forall j, p :: 0 <= j < |v.ino| && j != i && 0 <= p < MAXFILE * BSIZE ==>
          ByteAt(r, meta, j, p) == ByteAt(v, meta, j, p))
  }

  lemma StepStore(v: Vol, r: Vol, meta: nat, i: nat)
    requires Step(v, r, meta, i) && OthersKept(v, r, meta, i)
    ensures Sized(r, meta)
    ensures StoreOf(r, meta) == Store(StoreOf(v, meta).files[i := FileAt(r, meta, i)], |FreeBlocks(r.bitmap)|)
  {
    hide Shape, ByteAt, OthersKept, MappedSlots, FreeBlocks;
    assert Sized(r, meta);
    forall j | 0 <= j < |v.ino| && j != i
      ensures FileAt(r, meta, j) == FileAt(v, meta, j)
    {
      assert Content(r, meta, j) == Content(v, meta, j);
      OthersMapped(v, r, meta, i, j);
    }
  }

  lemma OthersMapped(v: Vol, r: Vol, meta: nat, i: nat, j: nat)
    requires OthersKept(v, r, meta, i) && j < |v.ino| && j != i
    ensures MappedSlots(r, meta, j) == MappedSlots(v, meta, j)
  {
    hide At, Shape;
    forall s: nat | s < SLOTS
      ensures At(r, meta, j, s) == At(v, meta, j, s)
    {
      assert Valid(v, j, s);
    }
  }

  lemma WroteStep(v: Vol, r: Vol, meta: nat, i: nat, off: nat, src: seq<byte>)
    requires Sized(v, meta) && Wrote(v, r, meta, i, off, src) && r.ino[i].typ == v.ino[i].typ
    requires r.ino[i].size <= MAXFILE * BSIZE
    requires forall j :: 0 <= j < |v.ino| && j != i ==> r.ino[j] == v.ino[j]
    ensures Step(v, r, meta, i)
  {
    hide Shape, ByteAt;
  }

  lemma TruncStep(v: Vol, r: Vol, meta: nat, i: nat)
    requires Sized(v, meta) && OthersKept(v, r, meta, i) && r.data == v.data && i < |v.ino|
    requires r.ino[i].typ == v.ino[i].typ && r.ino[i].size == 0
    requires forall j :: 0 <= j < |v.ino| && j != i ==> r.ino[j] == v.ino[j]
    ensures Step(v, r, meta, i) && Content(r, meta, i) == []
  {
  }

  /** A call that reads leaves the contents as they are. */
  lemma ReadStep(v: Vol, r: Vol, meta: nat, i: nat, off: nat)
    requires Sized(v, meta) && Wrote(v, r, meta, i, off, []) && i < |v.ino|
    requires r.ino == v.ino[i := SetAddrs(v.ino[i], r.ino[i].addrs)]
    ensures Step(v, r, meta, i) && Content(r, meta, i) == Content(v, meta, i)
  {
    hide Shape, ByteAt;
    WroteStep(v, r, meta, i, off, []);
  }

  /** The slots and the free blocks after a write or a read are those of the reference. */
  lemma ChargedStore(v: Vol, r: Vol, meta: nat, op: Op, off: nat, n: nat)
    requires Sized(v, meta) && Sized(r, meta) && op.inum < |v.ino| == |r.ino| && !op.TruncOp?
    requires Charged(v, r, meta, op.inum, off, n) && Uses(Content(v, meta, op.inum), op) == Wanted(off, n)
    requires !Rejected(Content(v, meta, op.inum), op) && Fits(StoreOf(v, meta), op)
    requires StoreOf(r, meta) ==
             Store(StoreOf(v, meta).files[op.inum := FileAt(r, meta, op.inum)], |FreeBlocks(r.bitmap)|)
    requires Content(r, meta, op.inum) == Effect(FileAt(v, meta, op.inum), op).content
    ensures StoreOf(r, meta) == Apply(StoreOf(v, meta), op)
  {
    hide Sized, Content, MappedSlots, Wanted, FreeBlocks, Splice;
  }

  lemma FitsNeeded(v: Vol, meta: nat, op: Op, off: nat, n: nat)
    requires Sized(v, meta) && op.inum < |v.ino| && Uses(Content(v, meta, op.inum), op) == Wanted(off, n)
    ensures Fits(StoreOf(v, meta), op) <==>
              Payable(Open(op), |FreeBlocks(v.bitmap)|, Needed(v, meta, op.inum, off, n))
  {
    hide Sized, Content, MappedSlots, Wanted, FreeBlocks;
  }

  lemma OkShape(fs: FileSys)
    requires fs.Ok()
    ensures Shape(fs.V(), fs.meta) && |fs.dinode| == |fs.ino|
  {
  }

  /**
  One operation on the volume is one operation of the reference.  It is false, for a panic, exactly
  when the reference does not fit.
  */
  method Do(fs: FileSys, op: Op) returns (ok: bool, a: Reply)
    requires fs.Ok() && Sized(fs.V(), fs.meta) && WellFormed(op, |fs.ino|)
    modifies fs
    ensures ok <==> Fits(old(StoreOf(fs.V(), fs.meta)), op)
    ensures ok ==> fs.Ok() && Sized(fs.V(), fs.meta) && |fs.ino| == |old(fs.ino)|
    ensures ok ==>
              var s := old(StoreOf(fs.V(), fs.meta));
              StoreOf(fs.V(), fs.meta) == Apply(s, op) && a == Answer(s.files[op.inum].content, op)
    ensures ok && old(Whole(fs.V(), fs.meta, fs.dinode)) ==> Whole(fs.V(), fs.meta, fs.dinode)
  {
    match op
    case WriteOp(inum, src, off) => ok, a := DoWrite(fs, op);
    case ReadOp(inum, off, n, _) => ok, a := DoRead(fs, op);
    case TruncOp(inum) => ok, a := DoTrunc(fs, op);
  }

  method DoWrite(fs: FileSys, op: Op) returns (ok: bool, a: Reply)
    requires fs.Ok() && Sized(fs.V(), fs.meta) && WellFormed(op, |fs.ino|) && op.WriteOp?
    modifies fs
    ensures ok <==> Fits(old(StoreOf(fs.V(), fs.meta)), op)
    ensures ok ==> fs.Ok() && Sized(fs.V(), fs.meta) && |fs.ino| == |old(fs.ino)|
    ensures ok ==>
              var s := old(StoreOf(fs.V(), fs.meta));
              StoreOf(fs.V(), fs.meta) == Apply(s, op) && a == Answer(s.files[op.inum].content, op)
    ensures ok && old(Whole(fs.V(), fs.meta, fs.dinode)) ==> Whole(fs.V(), fs.meta, fs.dinode)
  {
    hide Wrote, OthersKept, HoleFree, Content, Step, FileSys.Ok, TopsFilled, ByteAt, Charged, Needed, FreeBlocks,
         Fits, Apply, MappedSlots, Recorded;
    ghost var v, d, i := fs.V(), fs.dinode, op.inum;
    var r := fs.Writei(op.inum, op.src, op.off);
    if r.Refused? {
      RejectedStore(StoreOf(v, fs.meta), op);
      return true, Error;
    }
    FitsNeeded(v, fs.meta, op, op.off, |op.src|);
    if r.Panicked? { return false, Error; }
    OkShape(fs);
    WroteStep(v, fs.V(), fs.meta, i, op.off, op.src);
    StepStore(v, fs.V(), fs.meta, i);
    WriteRefines(v, fs.V(), fs.meta, i, op.off, op.src);
    ChargedStore(v, fs.V(), fs.meta, op, op.off, |op.src|);
    if Whole(v, fs.meta, d) {
      WholeKept(v, d, fs.V(), fs.dinode, fs.meta, i);
    }
    return true, Count(r.value);
  }

  method DoRead(fs: FileSys, op: Op) returns (ok: bool, a: Reply)
    requires fs.Ok() && Sized(fs.V(), fs.meta) && WellFormed(op, |fs.ino|) && op.ReadOp?
    modifies fs
    ensures ok <==> Fits(old(StoreOf(fs.V(), fs.meta)), op)
    ensures ok ==> fs.Ok() && Sized(fs.V(), fs.meta) && |fs.ino| == |old(fs.ino)|
    ensures ok ==>
              var s := old(StoreOf(fs.V(), fs.meta));
              StoreOf(fs.V(), fs.meta) == Apply(s, op) && a == Answer(s.files[op.inum].content, op)
    ensures ok && old(Whole(fs.V(), fs.meta, fs.dinode)) ==> Whole(fs.V(), fs.meta, fs.dinode)
  {
    hide Wrote, OthersKept, HoleFree, Content, Step, FileSys.Ok, TopsFilled, ByteAt, Charged, Needed, FreeBlocks,
         Fits, Apply, MappedSlots, Recorded, Holds;
    ghost var v, i := fs.V(), op.inum;
    var r := fs.Readi(op.inum, op.off, op.n, op.open);
    if r.Refused? {
      RejectedStore(StoreOf(v, fs.meta), op);
      return true, Error;
    }
    FitsNeeded(v, fs.meta, op, op.off, Min(op.n, v.ino[i].size - op.off));
    if r.Panicked? { return false, Error; }
    OkShape(fs);
    ReadStep(v, fs.V(), fs.meta, i, op.off);
    StepStore(v, fs.V(), fs.meta, i);
    ReadRefines(v, fs.meta, i, op.off, r.value);
    ChargedStore(v, fs.V(), fs.meta, op, op.off, |r.value|);
    return true, Bytes(r.value);
  }

  method DoTrunc(fs: FileSys, op: Op) returns (ok: bool, a: Reply)
    requires fs.Ok() && Sized(fs.V(), fs.meta) && WellFormed(op, |fs.ino|) && op.TruncOp?
    modifies fs
    ensures ok <==> Fits(old(StoreOf(fs.V(), fs.meta)), op)
    ensures ok ==> fs.Ok() && Sized(fs.V(), fs.meta) && |fs.ino| == |old(fs.ino)|
    ensures ok ==>
              var s := old(StoreOf(fs.V(), fs.meta));
              StoreOf(fs.V(), fs.meta) == Apply(s, op) && a == Answer(s.files[op.inum].content, op)
    ensures ok && old(Whole(fs.V(), fs.meta, fs.dinode)) ==> Whole(fs.V(), fs.meta, fs.dinode)
  {
    hide OthersKept, HoleFree, Content, Step, FileSys.Ok, ByteAt, FreeBlocks, MappedSlots, Recorded, Held;
    ghost var v, d, i := fs.V(), fs.dinode, op.inum;
    var r := fs.Itrunc(op.inum);
    OkShape(fs);
    TruncStep(v, fs.V(), fs.meta, i);
    StepStore(v, fs.V(), fs.meta, i);
    if Whole(v, fs.meta, d) {
      WholeKept(v, d, fs.V(), fs.dinode, fs.meta, i);
    }
    return true, Silent;
  }

  lemma RejectedStore(s: Store, op: Op)
    requires op.inum < |s.files| && Rejected(s.files[op.inum].content, op)
    ensures Fits(s, op) && Apply(s, op) == s
  {
    assert {} - s.files[op.inum].slots == {};
    assert s.files[op.inum := s.files[op.inum]] == s.files;
  }

  /**
  Any sequence of operations does what the reference does: the replies are those of the reference,
  and it stops exactly where the reference stops.
  */
  method Run(fs: FileSys, ops: seq<Op>) returns (ok: bool, replies: seq<Reply>)
    requires fs.Ok() && Sized(fs.V(), fs.meta) && InRange(ops, |fs.ino|)
    modifies fs
    ensures var p := Exec(old(StoreOf(fs.V(), fs.meta)), ops); replies == p.replies && ok == p.ok
    ensures ok ==> fs.Ok() && Sized(fs.V(), fs.meta)
    ensures ok ==> StoreOf(fs.V(), fs.meta) == Exec(old(StoreOf(fs.V(), fs.meta)), ops).store
    ensures ok && old(Whole(fs.V(), fs.meta, fs.dinode)) ==> Whole(fs.V(), fs.meta, fs.dinode)
  {
    hide Whole, FileAt, Apply, Answer, Fits, FileSys.Ok, FreeBlocks;
    ghost var s := StoreOf(fs.V(), fs.meta);
    OkShape(fs);
    replies := [];
    var k := 0;
    assert ops[..0] == [];
    while k < |ops|
      invariant 0 <= k <= |ops| && |fs.ino| == |old(fs.ino)|
      invariant fs.Ok() && Sized(fs.V(), fs.meta) && Shape(fs.V(), fs.meta)
      invariant Exec(s, ops[..k]) == Progress(StoreOf(fs.V(), fs.meta), replies, true)
      invariant old(Whole(fs.V(), fs.meta, fs.dinode)) ==> Whole(fs.V(), fs.meta, fs.dinode)
    {
      var a;
      ok, a := Do(fs, ops[k]);
      assert ops[..k + 1][..k] == ops[..k] && ops[..k + 1][k] == ops[k];
      if !ok {
        Stopped(s, ops, k);
        return;
      }
      OkShape(fs);
      replies := replies + [a];
      k := k + 1;
    }
    assert ops[..k] == ops;
    ok := true;
  }

  /** What comes after the operation that does not fit does not matter. */
  lemma {:induction false} Stopped(s: Store, ops: seq<Op>, k: nat)
    requires InRange(ops, |s.files|) && k < |ops| && Exec(s, ops[..k]).ok && !Fits(Exec(s, ops[..k]).store, ops[k])
    ensures Exec(s, ops) == Exec(s, ops[..k]).(ok := false)
    decreases |ops|
  {
    hide Fits, Apply, Answer;
    var before := ops[..|ops| - 1];
    if k < |ops| - 1 {
      assert before[..k] == ops[..k] && before[k] == ops[k];
      Stopped(s, before, k);
    } else {
      assert before == ops[..k];
    }
  }
}

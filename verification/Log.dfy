/**
The logging layer over the buffer cache: log_write, commit and recovery.  Each method says
which disk writes it issues; `CrashRecovery` says what those writes are worth after a crash.
A commit goes on write by write and waits where a reader holds the block that it has come to.
*/
module Log {
  import opened Prelude
  import opened Blocks
  import opened CrashRecovery
  import opened BufferCache
  import CrashRuns
  import Reservation

  const NBUF := 30

  /* ---- processes beside the committer ---- */

  /** The same processes hold or wait for the same blocks. */
  ghost predicate SameUsers(a: seq<Buf>, b: seq<Buf>) {
    && |a| == |b|
    && forall i :: 0 <= i < |a| ==>
         && b[i].refcnt == a[i].refcnt && b[i].locked == a[i].locked
         && (a[i].refcnt > 0 ==> b[i].dev == a[i].dev && b[i].blockno == a[i].blockno && (a[i].valid ==> b[i].valid))
  }

  /**
  What holds of a buffer when no operation is open: a clean one agrees with the disk even while a
  reader has it, and only the log itself uses log blocks.
  */
  ghost predicate CalmBuf(b: Buf, a: Area, disk: Disk) {
    b.dev == ROOTDEV && b.blockno < |disk| ==>
      && (b.valid && !b.dirty ==> b.data == disk[b.blockno])
      && (a.Holds(b.blockno) ==> b.refcnt == 0 && !b.dirty)
  }

  /** No process holds the buffer of block k. */
  ghost predicate Unlocked(buf: seq<Buf>, k: nat) {
    forall i :: 0 <= i < |buf| && buf[i].dev == ROOTDEV && buf[i].blockno == k ==> !buf[i].locked
  }

  /** How far a step of the committer has come: it is done, a reader is in its way, or there is no buffer. */
  datatype Progress = Went | Waits | Stops

  ghost predicate Calm(buf: seq<Buf>, a: Area, disk: Disk) {
    forall i :: 0 <= i < |buf| ==> CalmBuf(buf[i], a, disk)
  }

  /** While no one uses the cache, it is calm. */
  lemma IdleCalm(c: Bcache, a: Area)
    requires c.Valid() && Idle(c.buf) && forall k :: k in c.pinned ==> !a.Holds(k)
    ensures Calm(c.buf, a, c.disk)
  {
    forall i | 0 <= i < |c.buf|
      ensures CalmBuf(c.buf[i], a, c.disk)
    {
      assert BufOk(c.buf[i], c.Abs());
    }
  }

  lemma StillIdle(a: seq<Buf>, b: seq<Buf>)
    requires Idle(a) && SameUsers(a, b)
    ensures Idle(b)
  {
  }

  lemma SameUsersTrans(a: seq<Buf>, b: seq<Buf>, c: seq<Buf>)
    requires SameUsers(a, b) && SameUsers(b, c)
    ensures SameUsers(a, c)
  {
  }

  lemma ClearOrClean(c: Bcache, a: Area, k: nat)
    requires c.Valid() && Calm(c.buf, a, c.disk) && k < |c.disk|
    ensures k in c.pinned || c.view[k] == c.disk[k]
  {
    if k !in c.pinned && k in c.at {
      assert BufOk(c.buf[c.at[k]], c.Abs()) && CalmBuf(c.buf[c.at[k]], a, c.disk);
    }
  }

  /** The buffers i and j have gained a reference each, and are locked; nothing else has changed. */
  ghost predicate Borrowed(a: seq<Buf>, b: seq<Buf>, i: nat, j: nat) {
    && |a| == |b| && i < |a| && j < |a|
    && (forall k :: 0 <= k < |a| && k != i && k != j ==> b[k] == a[k])
    && Lent(a[i], b[i]) && Lent(a[j], b[j])
  }

  ghost predicate Lent(a: Buf, b: Buf) {
    && b.refcnt == a.refcnt + 1 && !a.locked && b.locked && b.valid && b.dev == ROOTDEV
    && (a.refcnt > 0 ==> b.dev == a.dev && b.blockno == a.blockno)
  }

  /* ---- one block, two blocks ---- */

  /** bread of a log block: only the committer uses those, so it never waits. */
  method ReadLogBlock(c: Bcache, ghost a: Area, k: nat) returns (ok: bool, i: nat)
    requires c.Valid() && Calm(c.buf, a, c.disk) && k < |c.disk| && a.Holds(k)
    modifies c`buf, c`at, c`disk, c`writes, c`pinned
    ensures c.Valid() && c.Abs() == old(c.Abs()) && c.writes == old(c.writes)
    ensures ok <==> HasSpare(old(c.buf))
    ensures !ok ==> c.buf == old(c.buf)
    ensures ok ==> Borrowed(old(c.buf), c.buf, i, i) && old(c.buf)[i].refcnt == 0
    ensures ok ==> c.Held(i) && c.buf[i].blockno == k && c.buf[i].data == c.view[k] == c.disk[k] && !c.buf[i].dirty
  {
    LogBlockSpare(c, a, k);
    ClearOrClean(c, a, k);
    LogBlockClean(c, a, k);
    var r := c.Bread(k);
    if r.NoBuffers? {
      return false, 0;
    }
    i := r.i;
    assert BufOk(old(c.buf)[i], old(c.Abs())) && BufOk(c.buf[i], c.Abs());
    return true, i;
  }

  /** A log block in the cache is a buffer that can be recycled. */
  lemma LogBlockSpare(c: Bcache, a: Area, k: nat)
    requires c.Valid() && Calm(c.buf, a, c.disk) && k < |c.disk| && a.Holds(k)
    ensures k in c.at ==>
              c.at[k] < |c.buf| && Recyclable(c.buf[c.at[k]]) && !c.buf[c.at[k]].locked && HasSpare(c.buf)
  {
    if k in c.at {
      assert BufOk(c.buf[c.at[k]], c.Abs()) && CalmBuf(c.buf[c.at[k]], a, c.disk);
    }
  }

  lemma LogBlockClean(c: Bcache, a: Area, k: nat)
    requires c.Valid() && Calm(c.buf, a, c.disk) && k < |c.disk| && a.Holds(k)
    ensures k !in c.pinned
  {
    assert k in c.at ==> BufOk(c.buf[c.at[k]], c.Abs()) && CalmBuf(c.buf[c.at[k]], a, c.disk);
  }

  /**
  bread of a log block and then of a home block.  The home block is pinned, so it is in the cache;
  or, in a recovery, no one uses the cache and there is room.  If a reader holds the home block, the
  log block is given back and the committer has to come again.
  */
  method ReadTwo(c: Bcache, ghost a: Area, x: nat, y: nat) returns (r: Progress, i: nat, j: nat)
    requires c.Valid() && Calm(c.buf, a, c.disk) && x < |c.disk| && y < |c.disk| && a.Holds(x) && !a.Holds(y)
    requires y in c.pinned || (c.pinned == {} && Idle(c.buf) && 2 <= |c.buf|)
    modifies c`buf, c`at, c`disk, c`writes, c`pinned, c`next, c`prev, c`lru
    ensures c.Valid() && c.Abs() == old(c.Abs()) && c.writes == old(c.writes)
    ensures r.Stops? <==> !HasSpare(old(c.buf))
    ensures r.Waits? <==> HasSpare(old(c.buf)) && !Unlocked(old(c.buf), y)
    ensures r.Stops? ==> c.buf == old(c.buf)
    ensures r.Waits? ==> Calm(c.buf, a, c.disk) && SameUsers(old(c.buf), c.buf) && HasSpare(c.buf)
    ensures r.Waits? ==> !Unlocked(c.buf, y)
    ensures r.Went? ==> i != j && Borrowed(old(c.buf), c.buf, i, j) && old(c.buf)[i].refcnt == 0
    ensures r.Went? ==> c.Held(i) && c.buf[i].blockno == x && c.buf[i].data == c.view[x] == c.disk[x] && !c.buf[i].dirty
    ensures r.Went? ==> c.Held(j) && c.buf[j].blockno == y && c.buf[j].data == c.view[y]
    ensures r.Went? ==> c.buf[j].dirty || c.view[y] == c.disk[y]
  {
    hide Listed, Linked, Sound, Calm, Borrowed, Written, HasSpare, Unlocked, SameUsers;
    ClearOrClean(c, a, y);
    var ok;
    ok, i := ReadLogBlock(c, a, x);
    if !ok {
      return Stops, 0, 0;
    }
    ghost var mid := c.buf;
    var busy := Busy(c.buf, y);
    UnlockedStays(old(c.buf), c.buf, i, y);
    if busy {
      LocksUsed(c);
      ReleaseLogBlock(c, a, i, old(c.buf), c.disk);
      LockedStays(old(c.buf), mid, c.buf, i, y);
      return Waits, 0, 0;
    }
    HomeBlockFree(c, a, old(c.buf), i, y);
    var got := c.Bread(y);
    j := got.i;
    HeldPinned(c, j);
    BorrowedBoth(old(c.buf), mid, c.buf, i, j);
    r := Went;
  }

  lemma LocksUsed(c: Bcache)
    requires c.Valid()
    ensures forall i :: 0 <= i < |c.buf| && c.buf[i].locked ==> c.buf[i].refcnt > 0
  {
    forall i | 0 <= i < |c.buf|
      ensures c.buf[i].locked ==> c.buf[i].refcnt > 0
    {
      assert BufOk(c.buf[i], c.Abs());
    }
  }

  /** Who holds a block still holds it when the log block has been given back. */
  lemma LockedStays(a: seq<Buf>, b: seq<Buf>, c: seq<Buf>, i: nat, k: nat)
    requires Borrowed(a, b, i, i) && SameUsers(a, c) && !Unlocked(b, k) && b[i].blockno != k
    requires forall j :: 0 <= j < |b| && b[j].locked ==> b[j].refcnt > 0
    ensures !Unlocked(c, k)
  {
    var j :| 0 <= j < |b| && b[j].dev == ROOTDEV && b[j].blockno == k && b[j].locked;
    assert a[j] == b[j] && c[j].locked && c[j].dev == ROOTDEV && c[j].blockno == k;
  }

  /** acquiresleep would have to wait. */
  method Busy(buf: seq<Buf>, k: nat) returns (busy: bool)
    ensures busy <==> !Unlocked(buf, k)
  {
    for i := 0 to |buf|
      invariant forall j :: 0 <= j < i && buf[j].dev == ROOTDEV && buf[j].blockno == k ==> !buf[j].locked
    {
      if buf[i].dev == ROOTDEV && buf[i].blockno == k && buf[i].locked {
        return true;
      }
    }
    return false;
  }

  /** Borrowing the buffer of another block takes no lock of block k. */
  lemma UnlockedStays(a: seq<Buf>, b: seq<Buf>, i: nat, k: nat)
    requires Borrowed(a, b, i, i) && b[i].blockno != k
    ensures Unlocked(a, k) <==> Unlocked(b, k)
  {
    if !Unlocked(a, k) {
      var j :| 0 <= j < |a| && a[j].dev == ROOTDEV && a[j].blockno == k && a[j].locked;
      assert b[j] == a[j];
    }
  }

  lemma HeldPinned(c: Bcache, j: nat)
    requires c.Valid() && c.Held(j)
    ensures c.buf[j].blockno < |c.disk| && (c.buf[j].dirty <==> c.buf[j].blockno in c.pinned)
  {
    assert BufOk(c.buf[j], c.Abs());
  }

  lemma BorrowedBoth(a: seq<Buf>, b: seq<Buf>, c: seq<Buf>, i: nat, j: nat)
    requires Borrowed(a, b, i, i) && j < |b| && |c| == |b| && c == b[j := c[j]] && i != j && Lent(b[j], c[j])
    ensures Borrowed(a, c, i, j)
  {
  }

  /** Once the log block has been read, the home block can be read as well, without waiting. */
  lemma HomeBlockFree(c: Bcache, a: Area, buf: seq<Buf>, i: nat, y: nat)
    requires c.Valid() && Calm(buf, a, c.disk) && Borrowed(buf, c.buf, i, i) && y < |c.disk|
    requires c.buf[i].blockno != y && (y in c.pinned || (c.pinned == {} && Idle(buf) && 2 <= |buf|))
    requires Unlocked(c.buf, y)
    ensures i < |c.buf| && c.buf[i].refcnt > 0
    ensures y in c.at ==>
              var k := c.at[y];
              k < |c.buf| && k != i && !c.buf[k].locked && c.buf[k].dev == ROOTDEV && c.buf[k].blockno == y
    ensures y !in c.at ==> HasSpare(c.buf) && forall k :: 0 <= k < |c.buf| && Recyclable(c.buf[k]) ==> !c.buf[k].locked
  {
    hide Listed, Linked;
    forall k | 0 <= k < |c.buf| && Recyclable(c.buf[k])
      ensures !c.buf[k].locked
    {
      assert BufOk(c.buf[k], c.Abs());
    }
    if y !in c.at {
      var k := if i == 0 then 1 else 0;
      assert BufOk(c.buf[k], c.Abs());
      assert Recyclable(c.buf[k]);
    }
  }

  /** New contents for a held buffer, written through to the disk. */
  method StoreThrough(c: Bcache, i: nat, d: Block)
    requires c.Valid() && c.Held(i)
    modifies c`buf, c`view, c`disk, c`writes, c`pinned
    ensures c.Valid() && c.Held(i)
    ensures c.buf == old(c.buf)[i := old(c.buf)[i].(data := d, dirty := false)]
    ensures var b := old(c.buf)[i].blockno;
            && c.Abs() == State(old(c.disk)[b := d], old(c.view)[b := d], old(c.pinned) - {b})
            && c.writes == old(c.writes) + [Write(b, d)]
  {
    c.Store(i, d);
    c.Bwrite(i);
  }

  /** A borrowed buffer that is clean or pinned can be given back. */
  ghost predicate Settled(b: Buf, a: Area, disk: Disk) {
    && b.blockno < |disk| && (b.dirty || b.data == disk[b.blockno])
    && (a.Holds(b.blockno) ==> b.refcnt == 1 && !b.dirty)
  }

  lemma Returned(a: Area, buf: seq<Buf>, held: seq<Buf>, r: seq<Buf>, i: nat, j: nat, disk: Disk, old_: Disk)
    requires Borrowed(buf, held, i, j) && Calm(buf, a, old_) && |r| == |held| && |disk| == |old_|
    requires forall k :: 0 <= k < |r| ==>
               r[k] == if k == i || k == j then held[k].(locked := false, refcnt := held[k].refcnt - 1) else held[k]
    requires Settled(held[i], a, disk) && Settled(held[j], a, disk)
    requires forall k :: 0 <= k < |buf| && k != i && k != j && buf[k].dev == ROOTDEV && buf[k].blockno < |disk| ==>
               disk[buf[k].blockno] == old_[buf[k].blockno]
    ensures Calm(r, a, disk) && SameUsers(buf, r)
    ensures (a.Holds(held[i].blockno) || a.Holds(held[j].blockno)) ==> HasSpare(r)
  {
    forall k | 0 <= k < |r|
      ensures CalmBuf(r[k], a, disk)
    {
      assert CalmBuf(buf[k], a, old_);
    }
    assert a.Holds(held[i].blockno) ==> Recyclable(r[i]);
    assert a.Holds(held[j].blockno) ==> Recyclable(r[j]);
  }

  method ReleaseTwo(c: Bcache, i: nat, j: nat)
    requires c.Valid() && c.Held(i) && c.Held(j) && i != j
    requires c.buf[i].dirty || c.buf[i].data == c.disk[c.buf[i].blockno]
    requires c.buf[j].dirty || c.buf[j].data == c.disk[c.buf[j].blockno]
    modifies c`buf, c`next, c`prev, c`lru
    ensures c.Valid() && |c.buf| == |old(c.buf)|
    ensures forall k :: 0 <= k < |c.buf| ==>
              var b := old(c.buf)[k];
              c.buf[k] == if k == i || k == j then b.(locked := false, refcnt := b.refcnt - 1) else b
  {
    hide Linked, Listed;
    assert BufOk(c.buf[i], c.Abs()) && BufOk(c.buf[j], c.Abs());
    c.Brelse(i);
    c.Brelse(j);
  }

  /** No other buffer has the block of a held one. */
  lemma OthersDiffer(c: Bcache, i: nat, buf: seq<Buf>, j: nat)
    requires c.Valid() && c.Held(i) && j < |c.buf| && Borrowed(buf, c.buf, i, j)
    ensures forall k :: 0 <= k < |buf| && k != i && k != j && buf[k].dev == ROOTDEV ==>
              buf[k].blockno != c.buf[i].blockno
  {
  }

  /**
  The loop body that write_log and install_trans share: read both blocks, copy one over the
  other, write it to disk.  Both read the log block first; write_log copies into it and
  install_trans out of it.  It waits exactly if a reader holds the home block, and the panic of bread
  comes exactly if no buffer can be had.
  */
  method CopyBlock(c: Bcache, ghost a: Area, from: nat, to: nat, intoLog: bool) returns (r: Progress)
    requires c.Valid() && Calm(c.buf, a, c.disk) && from < |c.disk| && to < |c.disk|
    requires if intoLog then a.Holds(to) && !a.Holds(from) else a.Holds(from) && !a.Holds(to)
    requires (if intoLog then from else to) in c.pinned || (c.pinned == {} && Idle(c.buf) && 2 <= |c.buf|)
    modifies c
    ensures c.Valid() && Calm(c.buf, a, c.disk) && SameUsers(old(c.buf), c.buf)
    ensures r.Stops? <==> !HasSpare(old(c.buf))
    ensures r.Waits? <==> HasSpare(old(c.buf)) && !Unlocked(old(c.buf), if intoLog then from else to)
    ensures !r.Went? ==> c.Abs() == old(c.Abs()) && c.writes == old(c.writes) && (r.Stops? ==> c.buf == old(c.buf))
    ensures r.Waits? ==> !Unlocked(c.buf, if intoLog then from else to)
    ensures !r.Stops? ==> HasSpare(c.buf)
    ensures r.Went? ==>
              var d := old(c.view)[from];
              && c.Abs() == State(old(c.disk)[to := d], old(c.view)[to := d], old(c.pinned) - {to})
              && c.writes == old(c.writes) + [Write(to, d)]
  {
    hide Linked, Listed, Sound, Borrowed, Written, HasSpare, Recyclable, Unlocked;
    ghost var buf := c.buf;
    var i, j;
    if intoLog {
      r, i, j := ReadTwo(c, a, to, from);
    } else {
      r, i, j := ReadTwo(c, a, from, to);
    }
    if !r.Went? {
      return;
    }
    ghost var held := c.buf;
    var src, dst := if intoLog then j else i, if intoLog then i else j;
    BorrowedApart(c, buf, i, j);
    StoreThrough(c, dst, c.buf[src].data);
    BorrowedStays(buf, held, c.buf, i, j, dst);
    ghost var put := c.buf;
    ReleaseTwo(c, src, dst);
    Returned(a, buf, put, c.buf, i, j, c.disk, old(c.disk));
  }

  lemma BorrowedApart(c: Bcache, buf: seq<Buf>, i: nat, j: nat)
    requires c.Valid() && Borrowed(buf, c.buf, i, j) && i != j
    ensures |buf| == |c.buf| && i < |buf| && j < |buf| && c.buf[i].refcnt == buf[i].refcnt + 1
    ensures forall k :: 0 <= k < |buf| && k != i && k != j && buf[k].dev == ROOTDEV ==>
              buf[k].blockno != c.buf[i].blockno && buf[k].blockno != c.buf[j].blockno
    ensures c.buf[i].blockno != c.buf[j].blockno
  {
  }

  lemma BorrowedStays(buf: seq<Buf>, held: seq<Buf>, r: seq<Buf>, i: nat, j: nat, k: nat)
    requires Borrowed(buf, held, i, j) && (k == i || k == j) && k < |held| == |r|
    requires r == held[k := held[k].(data := r[k].data, dirty := r[k].dirty)]
    ensures Borrowed(buf, r, i, j)
  {
  }

  /** A log block is given back unchanged. */
  method ReleaseLogBlock(c: Bcache, ghost a: Area, i: nat, ghost buf: seq<Buf>, ghost disk: Disk)
    requires c.Valid() && c.Held(i) && Borrowed(buf, c.buf, i, i) && buf[i].refcnt == 0
    requires a.Holds(c.buf[i].blockno) && !c.buf[i].dirty && c.buf[i].data == c.disk[c.buf[i].blockno]
    requires Calm(buf, a, disk) && |disk| == |c.disk|
    requires forall k :: 0 <= k < |disk| && k != c.buf[i].blockno ==> c.disk[k] == disk[k]
    modifies c`buf, c`next, c`prev, c`lru
    ensures c.Valid() && Calm(c.buf, a, c.disk) && SameUsers(buf, c.buf) && HasSpare(c.buf)
  {
    hide Linked, Listed;
    OthersDiffer(c, i, buf, i);
    ghost var held := c.buf;
    c.Brelse(i);
    Returned(a, buf, held, c.buf, i, i, c.disk, disk);
  }

  /** write_head's loop over the header words. */
  method EncodeHeader(h: Block, n: nat, block: seq<word>) returns (r: Block)
    requires n <= |block| == LOGSIZE
    ensures r == PutHeader(h, block[..n])
  {
    r := SetWord(h, 0, n);
    assert block[..0] == [];
    for i := 0 to n
      invariant r == PutBlocks(SetWord(h, 0, n), block[..i])
    {
      assert block[..i + 1][..i] == block[..i];
      r := SetWord(r, i + 1, block[i]);
    }
  }

  /** read_head's loop over the header words. */
  method DecodeHeader(h: Block, block: seq<word>) returns (n: nat, r: seq<word>)
    requires |block| == LOGSIZE && Word(h, 0) <= LOGSIZE
    ensures n <= |r| == LOGSIZE && r[..n] == HeaderBlocks(h)
  {
    n, r := Word(h, 0), block;
    for i := 0 to n
      invariant |r| == LOGSIZE
      invariant forall j :: 0 <= j < i ==> r[j] == Word(h, j + 1)
    {
      r := r[i := Word(h, i + 1)];
    }
  }

  ghost predicate NoRepeats(blocks: seq<word>) {
    forall s, t :: 0 <= s < t < |blocks| ==> blocks[s] != blocks[t]
  }

  /** The blocks of a list as a set; a list of distinct blocks has as many as it is long. */
  ghost function BlockSet(blocks: seq<word>): (s: set<nat>) {
    set t | 0 <= t < |blocks| :: blocks[t] as nat
  }

  lemma {:induction false} BlockSetSize(blocks: seq<word>)
    ensures |BlockSet(blocks)| <= |blocks|
  {
    if |blocks| != 0 {
      var front := blocks[..|blocks| - 1];
      BlockSetSize(front);
      assert BlockSet(blocks) == BlockSet(front) + {blocks[|blocks| - 1]};
    }
  }

  lemma BlockSetAppend(blocks: seq<word>, b: word)
    ensures BlockSet(blocks + [b]) == BlockSet(blocks) + {b as nat}
  {
    var r := blocks + [b];
    assert r[|blocks|] == b;
    assert forall t :: 0 <= t < |blocks| ==> r[t] == blocks[t];
  }

  /** The disk writes of a commit that starts from this disk and this view. */
  ghost function WritesOf(a: Area, base: Disk, seen: Disk, blocks: seq<word>): (ws: seq<Write>) {
    if |blocks| <= LOGSIZE && a.start < |base| && forall t :: 0 <= t < |blocks| ==> blocks[t] < |seen|
    then CommitWrites(a, base[a.start], blocks, Vals(seen, blocks))
    else []
  }

  /** The cache and the disk when `done` of these writes have been issued. */
  ghost predicate Issuing(a: Area, base: Disk, seen: Disk, before: seq<Write>, blocks: seq<word>, done: nat, s: State,
                          writes: seq<Write>) {
    var ws := WritesOf(a, base, seen, blocks);
    && |base| == |seen| == |s.disk| && Empty(a, base) && InRange(base, ws) && done < |ws| == 2 * |blocks| + 2
    && (forall k :: 0 <= k < |base| && k !in BlockSet(blocks) ==> seen[k] == base[k])
    && s.disk == ApplyAll(base, ws[..done]) && s.view == ApplyAll(seen, ws[..done]) && writes == before + ws[..done]
    && s.pinned == BlockSet(if done <= |blocks| then blocks else blocks[done - |blocks| - 1..])
  }

  class Log {
    const cache: Bcache
    const start: nat
    const size: nat
    var n: nat
    var block: seq<word>
    var outstanding: nat
    var committing: bool
    var done: nat              // how many of its disk writes the commit has issued
    ghost var base: Disk       // the disk, the view and the writes from which it started
    ghost var seen: Disk
    ghost var before: seq<Write>

    constructor (cache: Bcache, start: nat, size: nat)
      ensures this.cache == cache && this.start == start && this.size == size
      ensures n == 0 && |block| == LOGSIZE && outstanding == 0 && !committing
    {
      this.cache, this.start, this.size := cache, start, size;
      n, block := 0, seq(LOGSIZE, _ => 0);
      outstanding, committing, done := 0, false, 0;
      base, seen, before := [], [], [];
    }

    ghost function Place(): (a: Area) {
      Area(start, size)
    }

    ghost function Blocks(): (s: seq<word>)
      reads this
      requires n <= |block|
    {
      block[..n]
    }

    /** The in-memory header lists home blocks that fit the log area; the cache has room to work. */
    ghost predicate ValidHeader()
      reads this, cache
    {
      && cache.Valid()
      && |block| == LOGSIZE && n <= LOGSIZE
      && 0 < size && Place().Fits(cache.disk, Blocks())
    }

    /**
    Between commits: the header on disk is empty, the listed blocks are distinct, and they
    are exactly the pinned ones, so the cache still holds each of them.
    */
    ghost predicate Valid()
      reads this, cache
    {
      && ValidHeader()
      && Empty(Place(), cache.disk)
      && NoRepeats(Blocks())
      && cache.pinned == BlockSet(Blocks())
    }

    /** The disk writes of the commit in progress. */
    ghost function Ws(): (ws: seq<Write>)
      reads this
    {
      if n <= |block| then WritesOf(Place(), base, seen, block[..n]) else []
    }

    /**
    Within a commit: the first `done` writes have been issued, and the listed blocks that are not yet
    at home are pinned.
    */
    ghost predicate Underway()
      reads this, cache
    {
      && ValidHeader() && 0 < n && NoRepeats(Blocks()) && done < 2 * n + 2
      && Issuing(Place(), base, seen, before, Blocks(), done, cache.Abs(), cache.writes)
    }

    /** A reader holds the home block that the commit has come to. */
    ghost predicate Blocked()
      reads this, cache
    {
      n <= |block| &&
      if done < n then !Unlocked(cache.buf, block[done])
      else n < done <= 2 * n && !Unlocked(cache.buf, block[done - n - 1])
    }

    /** log_write's absorption: the block is listed once. */
    method Absorb(b: word)
      requires |block| == LOGSIZE && n < LOGSIZE
      modifies this`n, this`block
      ensures |block| == LOGSIZE && n <= LOGSIZE
      ensures Blocks() == if b in old(Blocks()) then old(Blocks()) else old(Blocks()) + [b]
      ensures BlockSet(Blocks()) == BlockSet(old(Blocks())) + {b as nat}
    {
      ghost var before := Blocks();
      var t := 0;
      while t < n && block[t] != b
        invariant t <= n
        invariant forall s :: 0 <= s < t ==> block[s] != b
      {
        t := t + 1;
      }
      block := block[t := b];
      if t == n {
        n := n + 1;
        assert Blocks() == before + [b];
        BlockSetAppend(before, b);
      } else {
        assert before[t] == b;
        assert Blocks() == before;
      }
    }

    /**
    log_write on a buffer its caller holds.  It refuses, as a panic, when the list is full or
    when no operation is open; otherwise the block is listed once and pinned.
    */
    method LogWrite(i: nat) returns (ok: bool)
      requires Valid() && cache.Held(i)
      requires cache.buf[i].blockno < 0x1_0000_0000 && !Place().Holds(cache.buf[i].blockno)
      modifies this`n, this`block, cache`buf, cache`pinned
      ensures ok <==> old(n) < LOGSIZE && old(n) < size - 1 && outstanding >= 1
      ensures !ok ==>
                n == old(n) && block == old(block) && cache.buf == old(cache.buf) && cache.pinned == old(cache.pinned)
      ensures ok ==> Valid() && cache.Held(i)
      ensures ok ==> cache.buf == old(cache.buf)[i := old(cache.buf)[i].(dirty := true)]
      ensures ok ==> if cache.buf[i].blockno in old(Blocks())
                     then Blocks() == old(Blocks())
                     else Blocks() == old(Blocks()) + [cache.buf[i].blockno]
    {
      hide Sound, Listed, Linked, Written, BlockSet;
      if n >= LOGSIZE || n >= size - 1 {
        return false;
      }
      if outstanding < 1 {
        return false;
      }
      HeldPinned(cache, i);
      Absorb(cache.buf[i].blockno);
      cache.Pin(i);
      return true;
    }

    /** write_head: one disk write, of the header block with the listed block numbers. */
    method WriteHead() returns (ok: bool)
      requires ValidHeader() && Calm(cache.buf, Place(), cache.disk)
      modifies cache
      ensures ValidHeader() && Calm(cache.buf, Place(), cache.disk) && SameUsers(old(cache.buf), cache.buf)
      ensures ok <==> HasSpare(old(cache.buf))
      ensures !ok ==>
                cache.Abs() == old(cache.Abs()) && cache.writes == old(cache.writes) && cache.buf == old(cache.buf)
      ensures ok ==> HasSpare(cache.buf)
      ensures ok ==>
                var w := HeadWrite(Place(), old(cache.disk)[start], Blocks());
                && cache.Abs() == State(old(cache.disk)[start := w.data], old(cache.view)[start := w.data],
                                        old(cache.pinned))
                && cache.writes == old(cache.writes) + [w]
    {
      hide Sound, Listed, Linked, Written, Borrowed;
      LogBlockClean(cache, Place(), start);
      ghost var buf, disk := cache.buf, cache.disk;
      var i;
      ok, i := ReadLogBlock(cache, Place(), start);
      if !ok {
        return;
      }
      ghost var held := cache.buf;
      var h := EncodeHeader(cache.buf[i].data, n, block);
      StoreThrough(cache, i, h);
      BorrowedStays(buf, held, cache.buf, i, i, i);
      ReleaseLogBlock(cache, Place(), i, buf, disk);
      assert cache.pinned == old(cache.pinned);
    }

    /** read_head: the list becomes what the header on disk says. */
    method ReadHead() returns (ok: bool)
      requires cache.Valid() && Calm(cache.buf, Place(), cache.disk) && 0 < size
      requires start < |cache.disk| && Word(cache.view[start], 0) <= LOGSIZE && |block| == LOGSIZE
      modifies this`n, this`block, cache
      ensures cache.Valid() && Calm(cache.buf, Place(), cache.disk) && SameUsers(old(cache.buf), cache.buf)
      ensures cache.Abs() == old(cache.Abs()) && cache.writes == old(cache.writes)
      ensures ok <==> HasSpare(old(cache.buf))
      ensures ok ==>
                HasSpare(cache.buf) && |block| == LOGSIZE && n <= LOGSIZE && Blocks() == HeaderBlocks(cache.view[start])
    {
      hide Sound, Listed, Linked, Written, Borrowed;
      ghost var buf, disk := cache.buf, cache.disk;
      var i;
      ok, i := ReadLogBlock(cache, Place(), start);
      if !ok {
        SameUsersRefl(buf);
        return;
      }
      n, block := DecodeHeader(cache.buf[i].data, block);
      ReleaseLogBlock(cache, Place(), i, buf, disk);
    }

    /**
    install_trans in a recovery, where no one else uses the cache: the log blocks go to their home blocks,
    in list order.
    */
    method InstallTrans()
      requires ValidHeader() && Idle(cache.buf) && cache.pinned == {} && 2 <= |cache.buf|
      modifies cache
      ensures Issued(cache, Place(), old(cache.buf), old(cache.disk), old(cache.view), old(cache.writes),
                     InstallWrites(Blocks(), Logged(Place(), old(cache.view), n)))
      ensures cache.pinned == {}
    {
      hide Sound, Listed, Linked, Idle, Calm, SameUsers, HasSpare, Written, ApplyAll, PutHeader, BlockSet, NoRepeats;
      ghost var b0, d0, v0, w0, blocks := cache.buf, cache.disk, cache.view, cache.writes, Blocks();
      ghost var ws := InstallWrites(blocks, Logged(Place(), v0, n));
      assert ws[..0] == [];
      IdleCalm(cache, Place());
      IssuedNothing(cache, Place());
      for t := 0 to n
        invariant Issued(cache, Place(), b0, d0, v0, w0, ws[..t]) && cache.pinned == {}
      {
        InstallSource(Place(), v0, blocks, t);
        StillIdle(b0, cache.buf);
        SameUsersSize(b0, cache.buf);
        InstallNext(cache, Place(), start + t + 1, block[t], b0, d0, v0, w0, ws, t);
      }
      assert ws[..n] == ws;
    }

    /** What recovery ends with: install the log, then write the empty header. */
    method InstallAndClear()
      requires ValidHeader() && Idle(cache.buf) && cache.pinned == {} && 2 <= |cache.buf|
      modifies this`n, cache
      ensures n == 0 && ValidHeader() && cache.pinned == {}
      ensures Issued(cache, Place(), old(cache.buf), old(cache.disk), old(cache.view), old(cache.writes),
                     InstallWrites(old(Blocks()), Logged(Place(), old(cache.view), old(n)))
                     + [HeadWrite(Place(), old(cache.disk)[start], [])])
    {
      hide Sound, Listed, Linked, Idle, Calm, SameUsers, HasSpare, Written, ApplyAll, PutHeader;
      ghost var b0, d0, v0, w0 := cache.buf, cache.disk, cache.view, cache.writes;
      ghost var ws := InstallWrites(Blocks(), Logged(Place(), v0, n));
      InstallTrans();
      ghost var b1 := cache.buf;
      ApplyUntouched(d0, ws, start);
      n := 0;
      assert Blocks() == [];
      StillIdle(b0, b1);
      SameUsersSize(b0, b1);
      IdleSpare(cache);
      var ok := WriteHead();
      SameUsersTrans(b0, b1, cache.buf);
      var w := HeadWrite(Place(), d0[start], []);
      ApplySnoc(d0, ws, w);
      ApplySnoc(v0, ws, w);
      Appended(w0, ws, w);
    }

    /**
    recover_from_log on a freshly started cache: the disk writes of `RecoverWrites`, after which
    the disk is the recovered one and the log is empty.
    */
    method RecoverFromLog()
      requires cache.Valid() && Idle(cache.buf) && cache.pinned == {} && 2 <= |cache.buf|
      requires Recoverable(Place(), cache.disk) && |block| == LOGSIZE
      modifies this`n, this`block, cache
      ensures Valid() && n == 0 && Idle(cache.buf) && |cache.buf| == |old(cache.buf)|
      ensures cache.writes == old(cache.writes) + RecoverWrites(Place(), old(cache.disk))
      ensures cache.disk == cache.view == Recovered(Place(), old(cache.disk))
    {
      hide Sound, Listed, Linked, Calm, SameUsers, HasSpare, Idle;
      ghost var d0, b0 := cache.disk, cache.buf;
      IdleCalm(cache, Place());
      AllClean(cache, Place());
      IdleSpare(cache);
      var ok := ReadHead();
      StillIdle(b0, cache.buf);
      SameUsersSize(b0, cache.buf);
      ghost var b1 := cache.buf;
      InstallAndClear();
      SameUsersSize(b1, cache.buf);
      StillIdle(b1, cache.buf);
      RecoveredIsEmpty(Place(), d0);
      assert Blocks() == [];
      AllClean(cache, Place());
    }

    /** One iteration of write_log: a listed block's current contents go to the next log block. */
    method WriteLogBlock() returns (r: Progress)
      requires Underway() && Calm(cache.buf, Place(), cache.disk) && done < n
      modifies this`done, cache
      ensures Underway() && Calm(cache.buf, Place(), cache.disk) && SameUsers(old(cache.buf), cache.buf)
      ensures r.Stops? <==> !HasSpare(old(cache.buf))
      ensures (r.Waits? <==> HasSpare(old(cache.buf)) && old(Blocked())) && (r.Waits? ==> Blocked())
      ensures done == old(done) + (if r.Went? then 1 else 0) && (!r.Stops? ==> HasSpare(cache.buf))
      ensures r.Stops? ==> cache.buf == old(cache.buf)
      ensures !r.Went? ==> cache.Abs() == old(cache.Abs()) && cache.writes == old(cache.writes)
    {
      hide Sound, Listed, Linked, Calm, SameUsers, HasSpare, Written, ApplyAll, PutHeader, WritesOf, Unlocked,
           BlockSet, NoRepeats, Issuing;
      ghost var s, ws := cache.Abs(), cache.writes;
      IssuingSource(Place(), base, seen, before, Blocks(), done, s, ws);
      ListedAt(Place(), cache.disk, Blocks(), done);
      r := CopyBlock(cache, Place(), block[done], start + done + 1, true);
      if r.Went? {
        IssuingNext(Place(), base, seen, before, Blocks(), done, s, ws, cache.Abs());
        done := done + 1;
      }
    }

    /** write_head with the list: the commit point. */
    method MarkCommitted() returns (r: Progress)
      requires Underway() && Calm(cache.buf, Place(), cache.disk) && done == n
      modifies this`done, cache
      ensures Underway() && Calm(cache.buf, Place(), cache.disk) && SameUsers(old(cache.buf), cache.buf)
      ensures (r.Stops? <==> !HasSpare(old(cache.buf))) && !r.Waits? && (r.Went? ==> HasSpare(cache.buf))
      ensures !r.Went? ==>
                cache.buf == old(cache.buf) && cache.Abs() == old(cache.Abs()) && cache.writes == old(cache.writes)
      ensures done == old(done) + (if r.Went? then 1 else 0)
    {
      hide Sound, Listed, Linked, Calm, SameUsers, HasSpare, Written, ApplyAll, PutHeader, WritesOf, BlockSet,
           NoRepeats, Issuing;
      ghost var s, ws := cache.Abs(), cache.writes;
      IssuingSource(Place(), base, seen, before, Blocks(), done, s, ws);
      var ok := WriteHead();
      if !ok {
        return Stops;
      }
      assert Blocks()[0..] == Blocks();
      IssuingNext(Place(), base, seen, before, Blocks(), done, s, ws, cache.Abs());
      done := done + 1;
      return Went;
    }

    /** One iteration of install_trans: a log block goes to its home, which need not stay in the cache any more. */
    method InstallBlock() returns (r: Progress)
      requires Underway() && Calm(cache.buf, Place(), cache.disk) && n < done <= 2 * n
      modifies this`done, cache
      ensures Underway() && Calm(cache.buf, Place(), cache.disk) && SameUsers(old(cache.buf), cache.buf)
      ensures r.Stops? <==> !HasSpare(old(cache.buf))
      ensures (r.Waits? <==> HasSpare(old(cache.buf)) && old(Blocked())) && (r.Waits? ==> Blocked())
      ensures done == old(done) + (if r.Went? then 1 else 0) && (!r.Stops? ==> HasSpare(cache.buf))
      ensures r.Stops? ==> cache.buf == old(cache.buf)
      ensures !r.Went? ==> cache.Abs() == old(cache.Abs()) && cache.writes == old(cache.writes)
    {
      hide Sound, Listed, Linked, Calm, SameUsers, HasSpare, Written, ApplyAll, PutHeader, WritesOf, Unlocked,
           BlockSet, NoRepeats, Issuing;
      ghost var s, ws := cache.Abs(), cache.writes;
      IssuingSource(Place(), base, seen, before, Blocks(), done, s, ws);
      var t := done - n - 1;
      BlockSetTail(Blocks(), t);
      r := CopyBlock(cache, Place(), start + t + 1, block[t], false);
      if r.Went? {
        IssuingNext(Place(), base, seen, before, Blocks(), done, s, ws, cache.Abs());
        done := done + 1;
      }
    }

    /** write_head with the empty list: the end of the commit. */
    method ClearHead() returns (r: Progress)
      requires Underway() && Calm(cache.buf, Place(), cache.disk) && done == 2 * n + 1
      modifies this`n, this`done, cache
      ensures cache.Valid() && Calm(cache.buf, Place(), cache.disk) && SameUsers(old(cache.buf), cache.buf) && n == 0
      ensures (r.Stops? <==> !HasSpare(old(cache.buf))) && !r.Waits?
      ensures r.Stops? ==>
                cache.Abs() == old(cache.Abs()) && cache.writes == old(cache.writes) && cache.buf == old(cache.buf)
      ensures done == old(done) + (if r.Went? then 1 else 0)
      ensures r.Went? ==> Ended(old(Ws())) && HasSpare(cache.buf)
    {
      hide Sound, Listed, Linked, Calm, SameUsers, HasSpare, Written, ApplyAll, PutHeader, WritesOf, BlockSet, Issuing,
           Empty, SameHome;
      ghost var blocks, s, ws := Blocks(), cache.Abs(), cache.writes;
      IssuingSource(Place(), base, seen, before, blocks, done, s, ws);
      CommitEnds(Place(), base, seen, blocks);
      assert blocks[done - n - 1..] == [];
      NoBlocks();
      n := 0;
      assert Blocks() == [];
      var ok := WriteHead();
      if !ok {
        return Stops;
      }
      IssuingLast(Place(), base, seen, before, blocks, done, s, ws, cache.Abs());
      done := done + 1;
      AllClean(cache, Place());
      return Went;
    }

    /** The next step of commit. */
    method Step() returns (r: Progress)
      requires Underway() && Calm(cache.buf, Place(), cache.disk)
      modifies this`n, this`done, cache
      ensures cache.Valid() && Calm(cache.buf, Place(), cache.disk) && SameUsers(old(cache.buf), cache.buf)
      ensures r.Stops? <==> !HasSpare(old(cache.buf))
      ensures (r.Waits? <==> HasSpare(old(cache.buf)) && old(Blocked())) && (r.Waits? ==> Blocked())
      ensures !r.Went? ==> cache.Abs() == old(cache.Abs()) && cache.writes == old(cache.writes) && done == old(done)
      ensures r.Waits? || (r.Went? && old(done) <= 2 * old(n)) ==> Underway() && n == old(n)
      ensures r.Stops? ==> cache.buf == old(cache.buf)
      ensures r.Went? ==> done == old(done) + 1 && HasSpare(cache.buf)
      ensures r.Went? && old(done) == 2 * old(n) + 1 ==> Ended(old(Ws()))
    {
      hide Sound, Listed, Linked, Calm, SameUsers, HasSpare, Written, ApplyAll, Issuing, WritesOf, Unlocked, NoRepeats;
      if done < n {
        r := WriteLogBlock();
      } else if done == n {
        r := MarkCommitted();
      } else if done <= 2 * n {
        r := InstallBlock();
      } else {
        r := ClearHead();
      }
    }

    /** The commit with these writes is over: the list is empty, and every block is on disk. */
    ghost predicate Ended(ws: seq<Write>)
      reads this, cache
    {
      && Valid() && n == 0 && cache.view == cache.disk && cache.writes == before + ws
      && InRange(base, ws) && cache.disk == ApplyAll(base, ws) && SameHome(Place(), cache.view, seen)
    }

    /** commit begins. */
    method StartCommit()
      requires Valid() && Calm(cache.buf, Place(), cache.disk) && 0 < n
      modifies this`done, this`base, this`seen, this`before
      ensures Underway() && done == 0 && base == cache.disk && seen == cache.view && before == cache.writes
    {
      hide Sound, Listed, Linked, Calm, Written, WritesOf;
      done, base, seen, before := 0, cache.disk, cache.view, cache.writes;
      forall k | 0 <= k < |base| && k !in BlockSet(Blocks())
        ensures seen[k] == base[k]
      {
        ClearOrClean(cache, Place(), k);
      }
      CommitSource(Place(), base, seen, Blocks(), 0);
      assert Ws()[..0] == [];
    }

    /**
    commit, begun or taken up again where it had to wait: the rest of its disk writes, with the contents
    that the processes last gave the listed blocks; what they see does not change, and in the end every
    block is on disk.  It waits only for a reader of the block that it has come to.  It panics before it
    issues a write, exactly if no buffer can be recycled.
    */
    method Commit() returns (r: Progress)
      requires Underway() && Calm(cache.buf, Place(), cache.disk)
      modifies this`n, this`done, cache
      ensures cache.Valid() && Calm(cache.buf, Place(), cache.disk) && SameUsers(old(cache.buf), cache.buf)
      ensures r.Stops? <==> !HasSpare(old(cache.buf))
      ensures r.Stops? ==> cache.Abs() == old(cache.Abs()) && cache.writes == old(cache.writes)
      ensures r.Waits? ==> Underway() && n == old(n) && done >= old(done) && Blocked()
      ensures r.Went? ==> Ended(old(Ws()))
    {
      hide Sound, Listed, Linked, Calm, SameUsers, HasSpare, Written, Issuing, WritesOf, Unlocked, NoRepeats;
      ghost var b0, ws := cache.buf, Ws();
      SameUsersRefl(b0);
      r := Went;
      while n > 0
        invariant r.Went? && Calm(cache.buf, Place(), cache.disk) && SameUsers(b0, cache.buf) && cache.Valid()
        invariant done >= old(done) && (n > 0 ==> Underway() && n == old(n) && Ws() == ws)
        invariant n == 0 ==> Ended(ws)
        invariant done == old(done) ==>
                    n > 0 && cache.buf == b0 && cache.Abs() == old(cache.Abs()) && cache.writes == old(cache.writes)
        invariant done > old(done) ==> HasSpare(cache.buf) && HasSpare(b0)
        decreases n, 2 * n + 2 - done
      {
        ghost var b1 := cache.buf;
        r := Step();
        SameUsersTrans(b0, b1, cache.buf);
        if !r.Went? {
          return;
        }
      }
    }

    /** One pass of begin_op's loop: the operation is admitted, or it must sleep and try again. */
    method BeginOp() returns (admitted: bool)
      requires n <= |block|
      modifies this`outstanding
      ensures forall ops: map<nat, nat> :: |ops| == old(outstanding) ==>
                (admitted <==> Reservation.Admits(Reservation.LogState(Blocks(), ops, committing)))
      ensures admitted <==> !committing && n + (old(outstanding) + 1) * Reservation.MAXOPBLOCKS <= LOGSIZE
      ensures outstanding == if admitted then old(outstanding) + 1 else old(outstanding)
    {
      if committing {
        return false;
      } else if n + (outstanding + 1) * Reservation.MAXOPBLOCKS > LOGSIZE {
        return false;
      }
      outstanding := outstanding + 1;
      return true;
    }

    /** The first half of end_op: the operation leaves; if it was the last one, a commit begins. */
    method Leave() returns (commits: bool)
      requires Valid() && outstanding >= 1 && !committing
      requires outstanding == 1 ==> Calm(cache.buf, Place(), cache.disk)
      modifies this`outstanding, this`committing, this`done, this`base, this`seen, this`before
      ensures outstanding == old(outstanding) - 1 && (commits <==> outstanding == 0 && n > 0) && committing == commits
      ensures !commits ==> Valid()
      ensures commits ==>
                Underway() && done == 0 && base == cache.disk && seen == cache.view && before == cache.writes
    {
      outstanding := outstanding - 1;
      if outstanding > 0 || n == 0 {
        return false;
      }
      committing := true;
      StartCommit();
      return true;
    }

    /** One step of the commit; after the last one the second half of end_op lets operations in again. */
    method CommitStep() returns (r: Progress)
      requires committing && Underway() && Calm(cache.buf, Place(), cache.disk)
      modifies this`n, this`done, this`committing, cache
      ensures cache.Valid() && Calm(cache.buf, Place(), cache.disk) && SameUsers(old(cache.buf), cache.buf)
      ensures r.Stops? <==> !HasSpare(old(cache.buf))
      ensures r.Waits? <==> HasSpare(old(cache.buf)) && old(Blocked())
      ensures r.Stops? ==> cache.buf == old(cache.buf)
      ensures !r.Went? ==> committing && cache.Abs() == old(cache.Abs()) && cache.writes == old(cache.writes)
      ensures r.Waits? ==> Underway() && n == old(n) && done == old(done)
      ensures r.Went? ==> (committing <==> old(done) <= 2 * old(n))
      ensures r.Went? && committing ==> Underway() && n == old(n) && done == old(done) + 1
      ensures r.Went? && !committing ==> Ended(old(Ws()))
    {
      hide Sound, Listed, Linked, Calm, SameUsers, HasSpare, Written, ApplyAll, Issuing, WritesOf, Unlocked, Blocked,
           NoRepeats;
      r := Step();
      if r.Went? && n == 0 {
        committing := false;
      }
    }

    /** end_op without a reader's move in between; where it waits, it goes on with `CommitStep`. */
    method EndOp() returns (r: Progress)
      requires Valid() && outstanding >= 1 && !committing
      requires outstanding == 1 ==> Calm(cache.buf, Place(), cache.disk)
      modifies this, cache
      ensures outstanding == old(outstanding) - 1 && (r.Went? <==> !committing)
      ensures outstanding > 0 || old(n) == 0 ==>
                && r.Went? && Valid() && Blocks() == old(Blocks()) && cache.buf == old(cache.buf)
                && cache.writes == old(cache.writes) && cache.Abs() == old(cache.Abs())
      ensures outstanding == 0 && old(n) > 0 ==>
                && cache.Valid() && Calm(cache.buf, Place(), cache.disk) && SameUsers(old(cache.buf), cache.buf)
                && (r.Stops? <==> !HasSpare(old(cache.buf)))
                && (r.Stops? ==> cache.Abs() == old(cache.Abs()) && cache.writes == old(cache.writes))
                && base == old(cache.disk) && seen == old(cache.view) && before == old(cache.writes)
                && (r.Waits? ==> Underway() && Blocks() == old(Blocks()) && Blocked())
                && (r.Went? ==> Ended(WritesOf(Place(), base, seen, old(Blocks()))))
    {
      hide Sound, Listed, Linked, Idle, Calm, SameUsers, HasSpare, Unlocked, NoRepeats, Written, Blocked, Issuing,
           WritesOf;
      r := Went;
      var commits := Leave();
      if commits {
        r := Commit();
        if r.Went? {
          committing := false;
        }
      }
    }
  }

  /* ---- when a commit finds no buffer ---- */

  /** With no reader about, a commit panics exactly if the list is as long as the cache. */
  lemma FullListPanics(l: Log)
    requires l.Valid() && Idle(l.cache.buf)
    ensures Calm(l.cache.buf, l.Place(), l.cache.disk)
    ensures HasSpare(l.cache.buf) <==> l.n < |l.cache.buf|
  {
    hide Listed, Linked;
    SpareIff(l.cache.buf, l.cache.at, l.cache.Abs());
    BlockSetExact(l.Blocks());
    forall k | k in l.cache.pinned
      ensures !l.Place().Holds(k)
    {
    }
    IdleCalm(l.cache, l.Place());
  }

  /** A log area no larger than the cache keeps the list shorter than the cache. */
  lemma SmallAreaFits(l: Log)
    requires l.Valid() && l.size <= |l.cache.buf|
    ensures l.n < |l.cache.buf|
  {
  }

  /** A possible run after which the list is as long as the cache. */
  ghost predicate FillsCache(size: nat, evs: seq<Reservation.Event>) {
    Reservation.Possible(size, evs) && |Reservation.Exec(evs).blocks| >= NBUF
  }

  /**
  The two limits pull against each other.  Whatever the size of the log area, there is a run in which
  an operation within its budget is refused a block, or one that fills the list to the size of the cache.
  */
  lemma NoSizeServesBoth(size: nat)
    ensures || (exists evs, op, b :: Reservation.RefusesWithinBudget(size, evs, op, b))
            || exists evs :: FillsCache(size, evs)
    ensures size > LOGSIZE <==> exists evs :: FillsCache(size, evs)
  {
    Reservation.ReservationSufficient(size);
    if size > LOGSIZE {
      Reservation.ScriptRuns(size, LOGSIZE);
      assert FillsCache(size, Reservation.Script(LOGSIZE));
    }
    forall evs | FillsCache(size, evs)
      ensures size > LOGSIZE
    {
      ListWithinArea(size, evs);
    }
  }

  lemma {:induction false} ListWithinArea(size: nat, evs: seq<Reservation.Event>)
    requires Reservation.Possible(size, evs)
    ensures |Reservation.Exec(evs).blocks| == 0 || |Reservation.Exec(evs).blocks| < size
  {
    if evs != [] {
      ListWithinArea(size, evs[..|evs| - 1]);
    }
  }

  /** The state of log and cache between two calls is a state of `CrashRuns` in which a transaction is open. */
  lemma OpenTransaction(l: Log)
    requires l.Valid() && Calm(l.cache.buf, l.Place(), l.cache.disk)
    ensures CrashRuns.Inv(l.Place(), CrashRuns.World(l.cache.disk, l.cache.view, CrashRuns.Running(l.Blocks())))
  {
    hide Sound, Listed, Linked, Calm, Written;
    forall b | 0 <= b < |l.cache.disk| && b !in l.cache.pinned
      ensures l.cache.view[b] == l.cache.disk[b]
    {
      ClearOrClean(l.cache, l.Place(), b);
    }
  }

  lemma {:induction false} BlockSetExact(blocks: seq<word>)
    requires NoRepeats(blocks)
    ensures |BlockSet(blocks)| == |blocks|
  {
    if blocks != [] {
      var front := blocks[..|blocks| - 1];
      BlockSetExact(front);
      assert blocks[|blocks| - 1] !in front;
      BlockSetAppend(front, blocks[|blocks| - 1]);
      assert front + [blocks[|blocks| - 1]] == blocks;
    }
  }

  lemma IdleSpare(c: Bcache)
    requires c.Valid() && Idle(c.buf) && c.pinned == {} && 0 < |c.buf|
    ensures HasSpare(c.buf)
  {
    SpareBuffer(c.buf, c.at, c.Abs());
  }

  lemma Appended(w0: seq<Write>, ws: seq<Write>, w: Write)
    ensures w0 + ws + [w] == w0 + (ws + [w])
  {
  }

  lemma SameUsersRefl(a: seq<Buf>)
    ensures SameUsers(a, a)
  {
  }

  lemma SameUsersSize(a: seq<Buf>, b: seq<Buf>)
    requires SameUsers(a, b)
    ensures |a| == |b|
  {
  }

  lemma NoBlocks()
    ensures BlockSet([]) == {}
  {
  }

  lemma IssuedNothing(c: Bcache, a: Area)
    requires c.Valid() && Calm(c.buf, a, c.disk)
    ensures Issued(c, a, c.buf, c.disk, c.view, c.writes, [])
  {
    SameUsersRefl(c.buf);
  }

  /** Committing the current contents changes nothing that the processes see. */
  lemma CommittedView(a: Area, v: Disk, h: Block, blocks: seq<word>)
    requires 0 < a.size && a.Fits(v, blocks)
    ensures InRange(v, CommitWrites(a, h, blocks, Vals(v, blocks)))
    ensures SameHome(a, ApplyAll(v, CommitWrites(a, h, blocks, Vals(v, blocks))), v)
  {
    AfterCommit(a, v, h, blocks, Vals(v, blocks));
    forall b | 0 <= b < |v|
      ensures Overlay(v, blocks, Vals(v, blocks))[b] == v[b]
    {
      OverlayAt(v, v, blocks, b);
    }
  }

  lemma AllClean(c: Bcache, a: Area)
    requires c.Valid() && Calm(c.buf, a, c.disk) && c.pinned == {}
    ensures c.view == c.disk
  {
    forall k | 0 <= k < |c.disk|
      ensures c.view[k] == c.disk[k]
    {
      ClearOrClean(c, a, k);
    }
  }

  /** Installing earlier blocks leaves the next log block alone. */
  lemma InstallSource(a: Area, v: Disk, blocks: seq<word>, t: nat)
    requires a.Fits(v, blocks) && t < |blocks|
    ensures var ws := InstallWrites(blocks, Logged(a, v, |blocks|));
            && InRange(v, ws) && ApplyAll(v, ws[..t])[a.start + t + 1] == v[a.start + t + 1]
            && ws[t] == Write(blocks[t], v[a.start + t + 1])
  {
    ApplyUntouched(v, InstallWrites(blocks, Logged(a, v, |blocks|))[..t], a.start + t + 1);
  }

  lemma BlockSetTail(blocks: seq<word>, t: nat)
    requires t < |blocks|
    ensures blocks[t] as nat in BlockSet(blocks[t..])
    ensures NoRepeats(blocks) ==> BlockSet(blocks[t + 1..]) == BlockSet(blocks[t..]) - {blocks[t] as nat}
    ensures |BlockSet(blocks[t..]) - {blocks[t] as nat}| <= |BlockSet(blocks[t..])|
  {
    var rest := blocks[t..];
    assert rest[0] == blocks[t];
    assert blocks[t + 1..] == rest[1..];
    assert rest == [blocks[t]] + rest[1..];
    SubsetSize(BlockSet(rest) - {blocks[t] as nat}, BlockSet(rest));
  }

  /** The cache after the disk writes ws, issued from the given state; every user has the buffers that it had. */
  ghost predicate Issued(c: Bcache, a: Area, b0: seq<Buf>, d0: Disk, v0: Disk, w0: seq<Write>, ws: seq<Write>)
    reads c
  {
    && c.Valid() && Calm(c.buf, a, c.disk) && SameUsers(b0, c.buf)
    && |d0| == |v0| && InRange(d0, ws)
    && c.disk == ApplyAll(d0, ws) && c.view == ApplyAll(v0, ws)
    && c.writes == w0 + ws
  }

  /** One step of the installing loop of a recovery. */
  method InstallNext(c: Bcache, ghost a: Area, from: nat, to: nat, ghost b0: seq<Buf>, ghost d0: Disk, ghost v0: Disk,
                     ghost w0: seq<Write>, ghost ws: seq<Write>, ghost t: nat)
    requires t < |ws| && InRange(d0, ws) && Issued(c, a, b0, d0, v0, w0, ws[..t])
    requires from < |d0| && to < |d0| && a.Holds(from) && !a.Holds(to)
    requires c.pinned == {} && Idle(c.buf) && 2 <= |c.buf| && ws[t] == Write(to, c.view[from])
    modifies c
    ensures Issued(c, a, b0, d0, v0, w0, ws[..t + 1]) && c.pinned == {}
  {
    hide Sound, Listed, Linked, Calm, SameUsers, HasSpare, Written;
    ghost var b1 := c.buf;
    IdleSpare(c);
    IdleUnlocked(c, to);
    hide Idle;
    var r := CopyBlock(c, a, from, to, false);
    SameUsersTrans(b0, b1, c.buf);
    ApplyNext(d0, ws, t);
    ApplyNext(v0, ws, t);
    assert ws[..t + 1] == ws[..t] + [ws[t]];
  }

  lemma IdleUnlocked(c: Bcache, k: nat)
    requires c.Valid() && Idle(c.buf)
    ensures Unlocked(c.buf, k)
  {
    forall i | 0 <= i < |c.buf|
      ensures !c.buf[i].locked
    {
      assert BufOk(c.buf[i], c.Abs());
    }
  }

  /* ---- where a commit stands ---- */

  lemma ListedAt(a: Area, d: Disk, blocks: seq<word>, t: nat)
    requires a.Fits(d, blocks) && t < |blocks|
    ensures blocks[t] as nat in BlockSet(blocks) && a.start + t + 1 !in BlockSet(blocks)
  {
  }

  /** The commit's next write, and where what it writes is to be found. */
  lemma CommitSource(a: Area, d: Disk, v: Disk, blocks: seq<word>, k: nat)
    requires 0 < a.size && a.Fits(d, blocks) && |v| == |d| && k < 2 * |blocks| + 2
    ensures var n, ws := |blocks|, WritesOf(a, d, v, blocks);
            && |ws| == 2 * n + 2 && InRange(d, ws)
            && (k < n ==> ws[k] == Write(a.start + k + 1, ApplyAll(v, ws[..k])[blocks[k]]))
            && (k == n ==> ws[k] == HeadWrite(a, ApplyAll(d, ws[..k])[a.start], blocks))
            && (n < k <= 2 * n ==> ws[k] == Write(blocks[k - n - 1], ApplyAll(v, ws[..k])[a.start + (k - n - 1) + 1]))
            && (k == 2 * n + 1 ==> ws[k] == HeadWrite(a, ApplyAll(d, ws[..k])[a.start], []))
  {
    hide PutHeader, ApplyAll;
    var n, h, vals := |blocks|, d[a.start], Vals(v, blocks);
    var ws := CommitWrites(a, h, blocks, vals);
    CommitInRange(a, d, h, blocks, vals);
    if k <= n {
      assert ws[..k] == LogWrites(a, vals)[..k];
      CommitPrefixLog(a, d, blocks, vals, k);
      CommitPrefixLog(a, v, blocks, vals, k);
    } else {
      var t := k - n - 1;
      assert ws[..k] == LogWrites(a, vals) + [HeadWrite(a, h, blocks)] + InstallWrites(blocks, vals)[..t];
      AfterInstalls(a, d, h, blocks, vals, t);
      AfterInstalls(a, v, h, blocks, vals, t);
    }
  }

  /** The next write, from what the cache has and what is on disk. */
  lemma IssuingSource(a: Area, base: Disk, seen: Disk, before: seq<Write>, blocks: seq<word>, k: nat, s: State,
                      writes: seq<Write>)
    requires Issuing(a, base, seen, before, blocks, k, s, writes) && 0 < a.size && a.Fits(s.disk, blocks)
    ensures |base| == |seen| == |s.disk| == |s.view| && |WritesOf(a, base, seen, blocks)| == 2 * |blocks| + 2
    ensures a.Fits(base, blocks)
    ensures s.pinned == BlockSet(if k <= |blocks| then blocks else blocks[k - |blocks| - 1..])
    ensures var n, w := |blocks|, NextOf(WritesOf(a, base, seen, blocks), k);
            && (k < n ==> w == Write(a.start + k + 1, s.view[blocks[k]]))
            && (k == n ==> w == HeadWrite(a, s.disk[a.start], blocks))
            && (n < k <= 2 * n ==> w == Write(blocks[k - n - 1], s.view[a.start + (k - n - 1) + 1]))
            && (k == 2 * n + 1 ==> w == HeadWrite(a, s.disk[a.start], []))
  {
    hide WritesOf, ApplyAll, PutHeader, BlockSet, Empty;
    CommitSource(a, base, seen, blocks, k);
  }

  ghost function NextOf(ws: seq<Write>, k: nat): (w: Write) {
    if k < |ws| then ws[k] else Write(0, Zero())
  }

  /** One more write has been issued. */
  lemma IssuingNext(a: Area, base: Disk, seen: Disk, before: seq<Write>, blocks: seq<word>, k: nat, s: State,
                    writes: seq<Write>, t: State)
    requires Issuing(a, base, seen, before, blocks, k, s, writes) && k + 1 < 2 * |blocks| + 2
    requires var w := NextOf(WritesOf(a, base, seen, blocks), k);
             && w.blockno < |s.disk| == |s.view|
             && t.disk == s.disk[w.blockno := w.data] && t.view == s.view[w.blockno := w.data]
    requires t.pinned == BlockSet(if k + 1 <= |blocks| then blocks else blocks[k - |blocks|..])
    ensures Issuing(a, base, seen, before, blocks, k + 1, t, writes + [NextOf(WritesOf(a, base, seen, blocks), k)])
  {
    hide WritesOf, ApplyAll, BlockSet, Empty;
    NextWrite(base, seen, before, WritesOf(a, base, seen, blocks), k);
  }

  /** The last write has been issued. */
  lemma IssuingLast(a: Area, base: Disk, seen: Disk, before: seq<Write>, blocks: seq<word>, k: nat, s: State,
                    writes: seq<Write>, t: State)
    requires Issuing(a, base, seen, before, blocks, k, s, writes) && k + 1 == 2 * |blocks| + 2
    requires var w := NextOf(WritesOf(a, base, seen, blocks), k);
             && w.blockno < |s.disk| == |s.view|
             && t.disk == s.disk[w.blockno := w.data] && t.view == s.view[w.blockno := w.data]
    ensures var ws := WritesOf(a, base, seen, blocks);
            && InRange(base, ws) && |base| == |seen| && t.disk == ApplyAll(base, ws) && t.view == ApplyAll(seen, ws)
            && writes + [NextOf(ws, k)] == before + ws
  {
    hide WritesOf, ApplyAll, BlockSet, Empty;
    var ws := WritesOf(a, base, seen, blocks);
    NextWrite(base, seen, before, ws, k);
    assert ws[..k + 1] == ws;
  }

  /** Disk, view and record after one more write. */
  lemma NextWrite(d: Disk, v: Disk, before: seq<Write>, ws: seq<Write>, k: nat)
    requires |d| == |v| && InRange(d, ws) && k < |ws|
    ensures ApplyAll(d, ws[..k + 1]) == ApplyAll(d, ws[..k])[ws[k].blockno := ws[k].data]
    ensures ApplyAll(v, ws[..k + 1]) == ApplyAll(v, ws[..k])[ws[k].blockno := ws[k].data]
    ensures before + ws[..k + 1] == before + ws[..k] + [ws[k]]
  {
    ApplyNext(d, ws, k);
    ApplyNext(v, ws, k);
    assert ws[..k + 1] == ws[..k] + [ws[k]];
  }

  /** After all its writes the log is empty, and the home blocks of the view are as they were. */
  lemma CommitEnds(a: Area, d: Disk, v: Disk, blocks: seq<word>)
    requires 0 < a.size && a.Fits(d, blocks) && |v| == |d|
    ensures var ws := WritesOf(a, d, v, blocks);
            && InRange(d, ws) && Empty(a, ApplyAll(d, ws)) && SameHome(a, ApplyAll(v, ws), v)
  {
    AfterCommit(a, d, d[a.start], blocks, Vals(v, blocks));
    CommittedView(a, v, d[a.start], blocks);
  }
}

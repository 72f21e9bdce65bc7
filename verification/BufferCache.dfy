/**
The buffer cache over the memory disk.  A pointer to a buffer is its index in `buf`; the index
|buf| stands for the list head.  Each method is one atomic step under bcache.lock or under the
buffer's sleep lock, so every interleaving of processes is a sequence of these calls.

`view` is the plain block map that the cache must agree with: what a block last held when a
buffer of it was changed, whether or not that has reached the disk.
*/
module BufferCache {
  import opened Prelude
  import opened Blocks
  import opened CrashRecovery

  const ROOTDEV: nat := 1

  datatype Buf = Buf(dev: nat, blockno: nat, valid: bool, dirty: bool, refcnt: nat, locked: bool, data: Block)

  /* ---- the list through prev and next ---- */

  /** `ring` runs from the head once around and back to the head. */
  ghost predicate Linked(next: seq<nat>, prev: seq<nat>, ring: seq<nat>) {
    && |next| == |prev|
    && (forall i :: 0 <= i < |ring| ==> ring[i] < |next|)
    && (forall i, j :: 0 <= i < j < |ring| && j == i + 1 ==> next[ring[i]] == ring[j] && prev[ring[j]] == ring[i])
  }

  /** The buffers in list order, each exactly once: most recently used first. */
  ghost predicate Listed(n: nat, lru: seq<nat>) {
    && |lru| == n
    && (forall i :: 0 <= i < n ==> lru[i] < n)
    && (forall i, j :: 0 <= i < j < n ==> lru[i] != lru[j])
    && (forall b :: 0 <= b < n ==> b in lru)
  }

  ghost function RingOf(n: nat, lru: seq<nat>): (r: seq<nat>) {
    [n] + lru + [n]
  }

  ghost predicate Distinct(n: nat, lru: seq<nat>) {
    && (forall i :: 0 <= i < |lru| ==> lru[i] < n)
    && (forall i, j :: 0 <= i < j < |lru| ==> lru[i] != lru[j])
  }

  ghost function Without(lru: seq<nat>, k: nat): (r: seq<nat>)
    requires k < |lru|
  {
    lru[..k] + lru[k + 1..]
  }

  lemma UnlinkKeepsRing(n: nat, next: seq<nat>, prev: seq<nat>, lru: seq<nat>, k: nat)
    requires Distinct(n, lru) && k < |lru| && |next| == n + 1
    requires Linked(next, prev, RingOf(n, lru))
    ensures next[lru[k]] <= n && prev[lru[k]] <= n
    ensures Linked(next[prev[lru[k]] := next[lru[k]]], prev[next[lru[k]] := prev[lru[k]]], RingOf(n, Without(lru, k)))
  {
    var ring := RingOf(n, lru);
    var b := lru[k];
    assert ring[k + 1] == b;
    assert next[ring[k + 1]] == ring[k + 2] && prev[ring[k + 1]] == ring[k];
    var next' := next[ring[k] := ring[k + 2]];
    var prev' := prev[ring[k + 2] := ring[k]];
    var ring' := RingOf(n, Without(lru, k));
    assert forall i :: 0 <= i <= k ==> ring'[i] == ring[i];
    assert forall i :: k < i < |ring'| ==> ring'[i] == ring[i + 1];
    forall i, j | 0 <= i < j < |ring'| && j == i + 1
      ensures next'[ring'[i]] == ring'[j] && prev'[ring'[j]] == ring'[i]
    {
      if i < k {
        assert ring[i] != ring[k] && ring[j] != ring[k + 2];
      } else if i > k {
        assert ring'[i] == ring[i + 1] && ring'[j] == ring[j + 1];
        assert ring[i + 1] != ring[k] && ring[j + 1] != ring[k + 2];
      }
    }
  }

  lemma PushFrontKeepsRing(n: nat, next: seq<nat>, prev: seq<nat>, lru: seq<nat>, b: nat)
    requires Distinct(n, lru) && |next| == n + 1 && b < n && b !in lru
    requires Linked(next, prev, RingOf(n, lru))
    ensures next[n] <= n
    ensures Linked(next[b := next[n]][n := b], prev[b := n][next[n] := b], RingOf(n, [b] + lru))
  {
    var ring := RingOf(n, lru);
    assert ring[0] == n && next[ring[0]] == ring[1];
    var next' := next[b := ring[1]][n := b];
    var prev' := prev[b := n][ring[1] := b];
    var ring' := RingOf(n, [b] + lru);
    assert ring'[0] == n && ring'[1] == b;
    assert forall i :: 2 <= i < |ring'| ==> ring'[i] == ring[i - 1];
    assert b !in ring;
    forall i, j | 0 <= i < j < |ring'| && j == i + 1
      ensures next'[ring'[i]] == ring'[j] && prev'[ring'[j]] == ring'[i]
    {
      if i >= 2 {
        assert ring'[i] == ring[i - 1] && ring'[j] == ring[j - 1];
        assert ring[i - 1] in ring && ring[j - 1] in ring;
        assert ring[j - 1] != ring[1];
      }
    }
  }

  lemma WithoutListed(n: nat, lru: seq<nat>, k: nat)
    requires Listed(n, lru) && k < n
    ensures Distinct(n, Without(lru, k)) && lru[k] !in Without(lru, k)
    ensures Listed(n, [lru[k]] + Without(lru, k))
  {
    var rest := Without(lru, k);
    var r := [lru[k]] + rest;
    assert forall i :: 0 <= i < k ==> rest[i] == lru[i];
    assert forall i :: k <= i < |rest| ==> rest[i] == lru[i + 1];
    forall b | 0 <= b < n
      ensures b in r
    {
      assert b in lru;
      var i :| 0 <= i < n && lru[i] == b;
      if i < k {
        assert r[i + 1] == b;
      } else if i > k {
        assert rest[i - 1] == b && r[i] == b;
      } else {
        assert r[0] == b;
      }
    }
  }

  /* ---- the buffers ---- */

  /** What the clients of the cache see: the disk, the current blocks, and the pinned blocks. */
  datatype State = State(disk: Disk, view: Disk, pinned: set<nat>) {
    ghost function Pin(k: nat, yes: bool): (r: State) {
      this.(pinned := if yes then pinned + {k} else pinned - {k})
    }
  }

  /** One buffer against that state; clean and released means equal to the disk. */
  ghost predicate BufOk(b: Buf, s: State)
    requires |s.view| == |s.disk|
  {
    && (b.dev != ROOTDEV ==> !b.valid && b.refcnt == 0)
    && (b.dev == ROOTDEV ==> b.blockno < |s.disk| && (b.valid || b.refcnt > 0) && (b.dirty <==> b.blockno in s.pinned))
    && (b.valid ==> b.dev == ROOTDEV && b.data == s.view[b.blockno])
    && (b.valid && !b.dirty && !b.locked ==> b.data == s.disk[b.blockno])
    && (b.dirty ==> b.valid)
    && (b.locked ==> b.refcnt > 0)
  }

  /** `at` finds the one buffer of a block, so no two buffers in use or valid share a block. */
  ghost predicate Indexed(buf: seq<Buf>, at: map<nat, nat>) {
    && (forall i :: 0 <= i < |buf| && buf[i].dev == ROOTDEV ==> buf[i].blockno in at && at[buf[i].blockno] == i)
    && (forall k :: k in at ==> at[k] < |buf| && buf[at[k]].dev == ROOTDEV && buf[at[k]].blockno == k)
  }

  ghost predicate Sound(buf: seq<Buf>, at: map<nat, nat>, s: State) {
    && |s.view| == |s.disk|
    && Indexed(buf, at)
    && (forall i :: 0 <= i < |buf| ==> BufOk(buf[i], s))
    && (forall k :: 0 <= k < |s.disk| && (k !in at || !buf[at[k]].valid) ==> s.view[k] == s.disk[k])
    && (forall k :: k in s.pinned ==> k in at)
  }

  predicate Recyclable(b: Buf) {
    b.refcnt == 0 && !b.dirty
  }

  /** No process holds or waits for a buffer. */
  ghost predicate Idle(buf: seq<Buf>) {
    forall i :: 0 <= i < |buf| ==> buf[i].refcnt == 0
  }

  /** A block whose buffer is neither pinned nor held has its view on disk. */
  lemma CleanOnDisk(buf: seq<Buf>, at: map<nat, nat>, s: State, k: nat)
    requires Sound(buf, at, s) && k < |s.disk|
    requires k !in s.pinned && (k in at ==> !buf[at[k]].locked)
    ensures s.view[k] == s.disk[k]
  {
    if k in at {
      assert BufOk(buf[at[k]], s);
    }
  }

  /** Changing one buffer, and the disk and the view at its block only, keeps the cache sound. */
  lemma UpdateSound(buf: seq<Buf>, at: map<nat, nat>, s: State, i: nat, b: Buf, d: Block)
    requires Sound(buf, at, s) && i < |buf|
    requires buf[i].dev == b.dev == ROOTDEV && buf[i].blockno == b.blockno
    requires b.valid && (b.dirty || b.locked || b.data == d)
    requires b.locked ==> b.refcnt > 0
    ensures Sound(buf[i := b], at,
                  State(s.disk[b.blockno := d], s.view[b.blockno := b.data], s.pinned).Pin(b.blockno, b.dirty))
  {
    var s' := State(s.disk[b.blockno := d], s.view[b.blockno := b.data], s.pinned).Pin(b.blockno, b.dirty);
    var buf' := buf[i := b];
    forall j | 0 <= j < |buf|
      ensures BufOk(buf'[j], s')
    {
      assert BufOk(buf[j], s);
    }
  }

  /** Changing only who uses a buffer. */
  lemma UseSound(buf: seq<Buf>, at: map<nat, nat>, s: State, i: nat, b: Buf)
    requires Sound(buf, at, s) && i < |buf|
    requires buf[i].dev == ROOTDEV && b == buf[i].(refcnt := b.refcnt, locked := b.locked)
    requires (b.locked ==> b.refcnt > 0) && (b.refcnt > 0 || b.valid)
    requires b.locked || b.dirty || !b.valid || b.data == s.disk[b.blockno]
    ensures Sound(buf[i := b], at, s)
  {
    var buf' := buf[i := b];
    forall j | 0 <= j < |buf|
      ensures BufOk(buf'[j], s)
    {
      assert BufOk(buf[j], s);
    }
  }

  ghost function Reindex(at: map<nat, nat>, b: Buf, blockno: nat, i: nat): (r: map<nat, nat>) {
    (if b.dev == ROOTDEV then at - {b.blockno} else at)[blockno := i]
  }

  /** Recycling a clean unreferenced buffer loses nothing: the view stays the same block map. */
  lemma RecycleSound(buf: seq<Buf>, at: map<nat, nat>, s: State, i: nat, b: Buf)
    requires Sound(buf, at, s) && i < |buf| && Recyclable(buf[i])
    requires b.blockno < |s.disk| && b.blockno !in at
    requires b == Buf(ROOTDEV, b.blockno, false, false, 1, false, buf[i].data)
    ensures Sound(buf[i := b], Reindex(at, buf[i], b.blockno, i), s)
  {
    var buf' := buf[i := b];
    var at' := Reindex(at, buf[i], b.blockno, i);
    assert BufOk(buf[i], s);
    forall j | 0 <= j < |buf'|
      ensures BufOk(buf'[j], s)
      ensures buf'[j].dev == ROOTDEV ==> buf'[j].blockno in at' && at'[buf'[j].blockno] == j
    {
      assert BufOk(buf[j], s);
    }
    forall k | 0 <= k < |s.disk| && (k !in at' || !buf'[at'[k]].valid)
      ensures s.view[k] == s.disk[k]
    {
      if k in at && k !in at' {
        assert at[k] == i && buf[i].valid;
      }
    }
  }

  lemma {:induction false} BlocknosCount(buf: seq<Buf>, at: map<nat, nat>, m: nat)
    requires m <= |buf|
    requires forall i :: 0 <= i < m ==> buf[i].blockno in at && at[buf[i].blockno] == i
    ensures |set i | 0 <= i < m :: buf[i].blockno| == m
  {
    var s := set i | 0 <= i < m :: buf[i].blockno;
    if m != 0 {
      var t := set i | 0 <= i < m - 1 :: buf[i].blockno;
      BlocknosCount(buf, at, m - 1);
      var last := buf[m - 1].blockno;
      assert last !in t;
      assert s == t + {last};
    }
  }

  ghost predicate HasSpare(buf: seq<Buf>) {
    exists i :: 0 <= i < |buf| && Recyclable(buf[i])
  }

  ghost function DirtyBlocks(buf: seq<Buf>, m: nat): (r: set<nat>)
    requires m <= |buf|
  {
    set i | 0 <= i < m && buf[i].dirty :: buf[i].blockno
  }

  lemma {:induction false} DirtyCount(buf: seq<Buf>, m: nat, clean: nat)
    requires m <= |buf| && clean < |buf| && !buf[clean].dirty
    ensures |DirtyBlocks(buf, m)| <= if clean < m then m - 1 else m
  {
    if m == 0 {
      assert DirtyBlocks(buf, 0) == {};
    } else {
      DirtyCount(buf, m - 1, clean);
      var more := if buf[m - 1].dirty then {buf[m - 1].blockno} else {};
      assert DirtyBlocks(buf, m) == DirtyBlocks(buf, m - 1) + more;
      UnionSize(DirtyBlocks(buf, m - 1), more);
    }
  }

  /** While no one uses the cache, a buffer can be recycled exactly if there are fewer pinned blocks than buffers. */
  lemma SpareIff(buf: seq<Buf>, at: map<nat, nat>, s: State)
    requires Sound(buf, at, s) && Idle(buf)
    ensures HasSpare(buf) <==> |s.pinned| < |buf|
  {
    if |s.pinned| < |buf| {
      SpareBuffer(buf, at, s);
    } else if HasSpare(buf) {
      var i :| 0 <= i < |buf| && Recyclable(buf[i]);
      DirtyCount(buf, |buf|, i);
      forall k | k in s.pinned
        ensures k in DirtyBlocks(buf, |buf|)
      {
        assert BufOk(buf[at[k]], s);
      }
      SubsetSize(s.pinned, DirtyBlocks(buf, |buf|));
    }
  }

  /** With fewer pinned blocks than buffers and no one using the cache, some buffer can be recycled. */
  lemma SpareBuffer(buf: seq<Buf>, at: map<nat, nat>, s: State)
    requires Sound(buf, at, s) && Idle(buf)
    requires |s.pinned| < |buf|
    ensures HasSpare(buf)
  {
    if !HasSpare(buf) {
      forall i | 0 <= i < |buf|
        ensures buf[i].blockno in at && at[buf[i].blockno] == i && buf[i].blockno in s.pinned
      {
        assert !Recyclable(buf[i]);
        assert BufOk(buf[i], s);
      }
      BlocknosCount(buf, at, |buf|);
      SubsetSize(set i | 0 <= i < |buf| :: buf[i].blockno, s.pinned);
    }
  }

  /* ---- the two searches of bget ---- */

  lemma AllListed(buf: seq<Buf>, lru: seq<nat>, at: map<nat, nat>, blockno: nat)
    requires Listed(|buf|, lru) && Indexed(buf, at)
    ensures blockno in at ==> exists l :: 0 <= l < |lru| && buf[lru[l]].dev == ROOTDEV && buf[lru[l]].blockno == blockno
  {
    if blockno in at {
      assert at[blockno] in lru;
    }
  }

  /** Forward from the head; coming back to the head means that the block is not cached. */
  method FindCached(buf: seq<Buf>, next: seq<nat>, ghost prev: seq<nat>, ghost lru: seq<nat>, ghost at: map<nat, nat>,
                    blockno: nat)
    returns (b: nat)
    requires Listed(|buf|, lru) && |next| == |buf| + 1 && Linked(next, prev, RingOf(|buf|, lru))
    requires Indexed(buf, at)
    ensures b == if blockno in at then at[blockno] else |buf|
  {
    ghost var ring := RingOf(|buf|, lru);
    var n := |buf|;
    b := next[n];
    ghost var p := 1;
    assert ring[0] == n && next[ring[0]] == ring[1];
    while b != n
      invariant 1 <= p <= n + 1 && b == ring[p]
      invariant forall q :: 1 <= q < p ==> !(buf[ring[q]].dev == ROOTDEV && buf[ring[q]].blockno == blockno)
      decreases n + 1 - p
    {
      assert ring[p] == lru[p - 1];
      if buf[b].dev == ROOTDEV && buf[b].blockno == blockno {
        return;
      }
      assert next[ring[p]] == ring[p + 1];
      b, p := next[b], p + 1;
    }
    assert forall q :: 1 <= q <= n ==> ring[q] == lru[q - 1] < n;
    assert forall l :: 0 <= l < n ==> lru[l] == ring[l + 1];
    AllListed(buf, lru, at, blockno);
  }

  /** Backward from the head: the least recently used buffer that will do, or the head. */
  method FindVictim(buf: seq<Buf>, ghost next: seq<nat>, prev: seq<nat>, ghost lru: seq<nat>) returns (b: nat)
    requires Listed(|buf|, lru) && |next| == |buf| + 1 && Linked(next, prev, RingOf(|buf|, lru))
    ensures b == |buf| ==> !HasSpare(buf)
    ensures b != |buf| ==> && b < |buf| && Recyclable(buf[b])
                           && (forall k, l :: 0 <= k < l < |lru| && lru[k] == b ==> !Recyclable(buf[lru[l]]))
  {
    ghost var ring := RingOf(|buf|, lru);
    var n := |buf|;
    b := prev[n];
    ghost var p := n;
    assert ring[n + 1] == n && prev[ring[n + 1]] == ring[n];
    while b != n
      invariant 0 <= p <= n && b == ring[p]
      invariant forall l :: p <= l < n ==> !Recyclable(buf[lru[l]])
      decreases p
    {
      assert ring[p] == lru[p - 1];
      if buf[b].refcnt == 0 && !buf[b].dirty {
        return;
      }
      assert prev[ring[p]] == ring[p - 1];
      b, p := prev[b], p - 1;
    }
    assert forall q :: 1 <= q <= n ==> ring[q] == lru[q - 1] < n;
    forall i | 0 <= i < |buf|
      ensures !Recyclable(buf[i])
    {
      assert i in lru;
    }
  }

  /** The disk is the image that the cache was started on with the issued writes, in order. */
  ghost predicate Written(image: Disk, writes: seq<Write>, disk: Disk) {
    InRange(image, writes) && disk == ApplyAll(image, writes)
  }

  lemma WrittenMore(image: Disk, writes: seq<Write>, disk: Disk, w: Write)
    requires Written(image, writes, disk) && w.blockno < |disk|
    ensures Written(image, writes + [w], disk[w.blockno := w.data])
  {
    ApplySnoc(image, writes, w);
  }

  /** How bread ends, or where it stops to wait. */
  datatype Reading = Ready(i: nat) | Asleep(i: nat) | NoBuffers

  class Bcache {
    var buf: seq<Buf>
    var next: seq<nat>
    var prev: seq<nat>
    var disk: Disk
    ghost var lru: seq<nat>
    ghost var at: map<nat, nat>
    ghost var view: Disk
    ghost var pinned: set<nat>
    ghost var writes: seq<Write>
    ghost const image: Disk

    ghost function Abs(): (s: State)
      reads this
    {
      State(disk, view, pinned)
    }

    ghost predicate ValidList()
      reads this
    {
      Listed(|buf|, lru) && |next| == |buf| + 1 && Linked(next, prev, RingOf(|buf|, lru))
    }

    ghost predicate Valid()
      reads this
    {
      && |view| == |disk|
      && ValidList()
      && Sound(buf, at, Abs())
      && Written(image, writes, disk)
    }

    /** A buffer that its caller holds locked, with the block's contents read in. */
    ghost predicate Held(i: nat)
      reads this
    {
      i < |buf| && buf[i].dev == ROOTDEV && buf[i].locked && buf[i].valid
    }

    /** binit, over a disk image. */
    constructor (nbuf: nat, image: Disk)
      ensures Valid()
      ensures |buf| == nbuf && Idle(buf) && Abs() == State(image, image, {}) && writes == [] && this.image == image
    {
      this.image := image;
      buf := seq(nbuf, _ => Buf(0, 0, false, false, 0, false, Zero()));
      next := seq(nbuf + 1, _ => nbuf);
      prev := seq(nbuf + 1, _ => nbuf);
      disk := image;
      lru := [];
      at := map[];
      view := image;
      pinned := {};
      writes := [];
      new;
      var b := 0;
      while b < nbuf
        invariant b <= nbuf
        invariant buf == seq(nbuf, _ => Buf(0, 0, false, false, 0, false, Zero()))
        invariant Abs() == State(image, image, {}) && at == map[] && writes == []
        invariant |next| == nbuf + 1
        invariant |lru| == b && Distinct(b, lru) && (forall c :: 0 <= c < b ==> c in lru)
        invariant Linked(next, prev, RingOf(nbuf, lru))
      {
        PushFrontKeepsRing(nbuf, next, prev, lru, b);
        next := next[b := next[nbuf]];
        prev := prev[b := nbuf];
        prev := prev[next[nbuf] := b];
        next := next[nbuf := b];
        lru := [b] + lru;
        b := b + 1;
      }
    }

    /**
    bget, the part under bcache.lock.  A cached block gains a reference; otherwise the least
    recently used buffer that is neither referenced nor dirty is recycled.  None stands for
    the panic when there is no such buffer.
    */
    method Bget(blockno: nat) returns (r: Option<nat>)
      requires Valid() && blockno < |disk|
      modifies this`buf, this`at
      ensures Valid()
      ensures r.None? ==> buf == old(buf) && at == old(at)
      ensures r.None? <==> blockno !in old(at) && !HasSpare(old(buf))
      ensures r.Some? ==> r.value < |old(buf)|
      ensures r.Some? && blockno in old(at) ==>
                var i, b := r.value, old(buf)[r.value];
                i == old(at)[blockno] && at == old(at) && buf == old(buf)[i := b.(refcnt := b.refcnt + 1)]
      ensures r.Some? && blockno !in old(at) ==>
                var i, b := r.value, old(buf)[r.value];
                && Recyclable(b)
                && buf == old(buf)[i := Buf(ROOTDEV, blockno, false, false, 1, false, b.data)]
                && (forall k, l :: 0 <= k < l < |lru| && lru[k] == i ==> !Recyclable(old(buf)[lru[l]]))
    {
      var i := FindCached(buf, next, prev, lru, at, blockno);
      if i != |buf| {
        var b := buf[i].(refcnt := buf[i].refcnt + 1);
        UseSound(buf, at, Abs(), i, b);
        buf := buf[i := b];
        return Some(i);
      }
      i := FindVictim(buf, next, prev, lru);
      if i == |buf| {
        return None;
      }
      var b := Buf(ROOTDEV, blockno, false, false, 1, false, buf[i].data);
      RecycleSound(buf, at, Abs(), i, b);
      at := Reindex(at, buf[i], blockno, i);
      buf := buf[i := b];
      return Some(i);
    }

    /** acquiresleep on a buffer, once the lock is free. */
    method Lock(i: nat)
      requires Valid() && i < |buf| && buf[i].dev == ROOTDEV && buf[i].refcnt > 0 && !buf[i].locked
      modifies this`buf
      ensures Valid()
      ensures buf == old(buf)[i := old(buf)[i].(locked := true)]
    {
      UseSound(buf, at, Abs(), i, buf[i].(locked := true));
      buf := buf[i := buf[i].(locked := true)];
    }

    /** iderw: a dirty buffer is written, any other is read. */
    method Iderw(i: nat)
      requires Valid() && i < |buf| && buf[i].dev == ROOTDEV && buf[i].locked
      requires !buf[i].valid || buf[i].dirty
      modifies this`buf, this`disk, this`writes, this`pinned
      ensures Valid() && Held(i)
      ensures buf == old(buf)[i := old(buf)[i].(valid := true, dirty := false, data := view[old(buf)[i].blockno])]
      ensures old(buf)[i].dirty ==>
                var b := old(buf)[i];
                && disk == old(disk)[b.blockno := b.data] && writes == old(writes) + [Write(b.blockno, b.data)]
                && pinned == old(pinned) - {b.blockno}
      ensures !old(buf)[i].dirty ==> disk == old(disk) && writes == old(writes) && pinned == old(pinned)
    {
      var b := buf[i];
      var k := b.blockno;
      if b.dirty {
        UpdateSound(buf, at, Abs(), i, b.(dirty := false), b.data);
        WrittenMore(image, writes, disk, Write(k, b.data));
        disk, pinned := disk[k := b.data], pinned - {k};
        writes := writes + [Write(k, b.data)];
        buf := buf[i := b.(dirty := false)];
      } else {
        UpdateSound(buf, at, Abs(), i, b.(data := disk[k], valid := true), disk[k]);
        buf := buf[i := b.(data := disk[k], valid := true)];
      }
      assert view[k := view[k]] == view && disk[k := disk[k]] == disk;
    }

    /**
    bread up to the point where it returns, sleeps on the buffer's lock, or panics because there is
    no buffer.  When it returns, the buffer has the block's view; a sleeper holds a reference, and
    goes on with `LockAndFill`.
    */
    method Bread(blockno: nat) returns (r: Reading)
      requires Valid() && blockno < |disk|
      modifies this`buf, this`at, this`disk, this`writes, this`pinned
      ensures Valid() && Abs() == old(Abs()) && writes == old(writes)
      ensures r.NoBuffers? <==> blockno !in old(at) && !HasSpare(old(buf))
      ensures r.NoBuffers? ==> buf == old(buf) && at == old(at)
      ensures r.Asleep? <==> blockno in old(at) && old(buf)[old(at)[blockno]].locked
      ensures r.Asleep? ==>
                var i, b := r.i, old(buf)[old(at)[blockno]];
                i == old(at)[blockno] && at == old(at) && buf == old(buf)[i := b.(refcnt := b.refcnt + 1)]
      ensures r.Ready? ==>
                var i := r.i;
                && Held(i) && buf == old(buf)[i := buf[i]]
                && buf[i].blockno == blockno && buf[i].data == view[blockno]
                && buf[i].refcnt == old(buf)[i].refcnt + 1
                && (if blockno in old(at) then i == old(at)[blockno] else Recyclable(old(buf)[i]))
    {
      var got := Bget(blockno);
      if got.None? {
        return NoBuffers;
      }
      if buf[got.value].locked {
        return Asleep(got.value);
      }
      LockAndFill(got.value);
      return Ready(got.value);
    }

    /** bread after bget: take the lock, and read the block unless the buffer already has it. */
    method LockAndFill(i: nat)
      requires Valid() && i < |buf| && buf[i].dev == ROOTDEV && buf[i].refcnt > 0 && !buf[i].locked
      modifies this`buf, this`disk, this`writes, this`pinned
      ensures Valid() && Held(i) && Abs() == old(Abs()) && writes == old(writes)
      ensures buf == old(buf)[i := old(buf)[i].(locked := true, valid := true, data := view[old(buf)[i].blockno])]
    {
      Lock(i);
      if !buf[i].valid {
        Iderw(i);
      }
    }

    /** The holder changes the contents of the buffer. */
    method Store(i: nat, d: Block)
      requires Valid() && Held(i)
      modifies this`buf, this`view
      ensures Valid() && Held(i)
      ensures buf == old(buf)[i := old(buf)[i].(data := d)]
      ensures view == old(view)[buf[i].blockno := d]
    {
      var b := buf[i].(data := d);
      UpdateSound(buf, at, Abs(), i, b, disk[b.blockno]);
      assert disk[b.blockno := disk[b.blockno]] == disk;
      assert Abs().Pin(b.blockno, b.dirty) == Abs();
      view := view[b.blockno := d];
      buf := buf[i := b];
    }

    /** log_write's pin: the buffer must not be recycled before commit. */
    method Pin(i: nat)
      requires Valid() && Held(i)
      modifies this`buf, this`pinned
      ensures Valid() && Held(i)
      ensures buf == old(buf)[i := old(buf)[i].(dirty := true)]
      ensures pinned == old(pinned) + {buf[i].blockno}
    {
      var b := buf[i].(dirty := true);
      UpdateSound(buf, at, Abs(), i, b, disk[b.blockno]);
      assert disk[b.blockno := disk[b.blockno]] == disk && view[b.blockno := b.data] == view;
      buf, pinned := buf[i := b], pinned + {b.blockno};
    }

    method Bwrite(i: nat)
      requires Valid() && Held(i)
      modifies this`buf, this`disk, this`writes, this`pinned
      ensures Valid() && Held(i)
      ensures buf == old(buf)[i := old(buf)[i].(dirty := false)]
      ensures disk == old(disk)[buf[i].blockno := buf[i].data]
      ensures writes == old(writes) + [Write(buf[i].blockno, buf[i].data)]
      ensures pinned == old(pinned) - {buf[i].blockno}
    {
      Pin(i);
      Iderw(i);
    }

    /**
    brelse: the last holder's buffer becomes the most recently used.  The cache stays sound exactly
    if a caller that changed the data has called bwrite or log_write first.
    */
    method Brelse(i: nat)
      requires Valid() && Held(i)
      modifies this`buf, this`next, this`prev, this`lru
      ensures ValidList() && (Valid() <==> old(buf[i].dirty || buf[i].data == disk[buf[i].blockno]))
      ensures buf == old(buf)[i := old(buf)[i].(locked := false, refcnt := old(buf)[i].refcnt - 1)]
      ensures buf[i].refcnt > 0 ==> lru == old(lru)
      ensures buf[i].refcnt == 0 ==> exists k :: 0 <= k < |lru| && old(lru)[k] == i && lru == [i] + Without(old(lru), k)
    {
      var b := buf[i].(locked := false, refcnt := buf[i].refcnt - 1);
      if b.dirty || b.data == disk[b.blockno] {
        UseSound(buf, at, Abs(), i, b);
      }
      assert BufOk(buf[i], Abs()) && BufOk(b, Abs()) ==> b.dirty || b.data == disk[b.blockno];
      buf := buf[i := b];
      if b.refcnt == 0 {
        MoveToFront(i);
      }
    }

    /** The pointer updates that take a buffer out of the list and put it behind the head. */
    method MoveToFront(i: nat)
      requires ValidList() && i < |buf|
      modifies this`next, this`prev, this`lru
      ensures ValidList()
      ensures exists k :: 0 <= k < |lru| && old(lru)[k] == i && lru == [i] + Without(old(lru), k)
    {
      var n := |buf|;
      assert i in lru;
      ghost var k :| 0 <= k < |lru| && lru[k] == i;
      ghost var rest := Without(lru, k);
      assert RingOf(n, lru)[k + 1] == i;
      UnlinkKeepsRing(n, next, prev, lru, k);
      WithoutListed(n, lru, k);
      prev, next := prev[next[i] := prev[i]], next[prev[i] := next[i]];
      PushFrontKeepsRing(n, next, prev, rest, i);
      next := next[i := next[n]];
      prev := prev[i := n];
      prev := prev[next[n] := i];
      next := next[n := i];
      lru := [i] + rest;
    }
  }
}

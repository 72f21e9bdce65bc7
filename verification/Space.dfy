/**
What a range of bytes costs in blocks.  A range wants certain slots of its inode; the slots that are
empty are the blocks that have to be allocated, each exactly once.
*/
module Space {
  import opened Prelude
  import opened Blocks
  import opened Ownership

  /** The bn-th file block holds one of the n bytes from off on. */
  predicate Covers(off: nat, n: nat, bn: nat) {
    0 < n && off / BSIZE <= bn && bn * BSIZE < off + n
  }

  /** The file block behind a slot that is not the indirect one. */
  function BlockOf(s: nat): (bn: nat)
    requires s != NDIRECT
  {
    if s < NDIRECT then s else s - 1
  }

  /** The n bytes from off on need slot s. */
  predicate Wants(off: nat, n: nat, s: nat) {
    if s == NDIRECT then 0 < n && NDIRECT * BSIZE < off + n else Covers(off, n, BlockOf(s))
  }

  function Wanted(off: nat, n: nat): (r: set<nat>) {
    set s: nat | s < SLOTS && Wants(off, n, s)
  }

  /** The slots on the way to the bn-th file block. */
  function PathSlots(bn: nat): (r: set<nat>)
    requires bn < MAXFILE
  {
    if bn < NDIRECT then {FileSlot(bn)} else {FileSlot(bn), NDIRECT as nat}
  }

  /** The slots of inode i that hold a block. */
  ghost function MappedSlots(v: Vol, meta: nat, i: nat): (r: set<nat>)
    requires Shape(v, meta) && i < |v.ino|
  {
    set s: nat | s < SLOTS && Valid(v, i, s) && At(v, meta, i, s) != 0
  }

  /** How many blocks the range lacks. */
  ghost function Needed(v: Vol, meta: nat, i: nat, off: nat, n: nat): (r: nat)
    requires Shape(v, meta) && i < |v.ino|
  {
    |Wanted(off, n) - MappedSlots(v, meta, i)|
  }

  lemma CoversSplit(off: nat, a: nat, b: nat, bn: nat)
    ensures Covers(off, a + b, bn) <==> Covers(off, a, bn) || Covers(off + a, b, bn)
  {
    if 0 < a && 0 < b {
      assert off / BSIZE <= (off + a) / BSIZE;
      if off + a <= bn * BSIZE {
        assert (off + a) / BSIZE <= bn;
      }
    }
  }

  lemma WantedSplit(off: nat, a: nat, b: nat)
    ensures Wanted(off, a + b) == Wanted(off, a) + Wanted(off + a, b)
  {
    forall s: nat | s < SLOTS
      ensures Wants(off, a + b, s) <==> Wants(off, a, s) || Wants(off + a, b, s)
    {
      if s != NDIRECT {
        CoversSplit(off, a, b, BlockOf(s));
      }
    }
  }

  /** A range inside one block wants the path to it. */
  lemma WantedOne(off: nat, m: nat)
    requires 0 < m && off % BSIZE + m <= BSIZE && off / BSIZE < MAXFILE
    ensures Wanted(off, m) == PathSlots(off / BSIZE)
  {
    var q := off / BSIZE;
    forall s: nat | s < SLOTS
      ensures Wants(off, m, s) <==> s in PathSlots(q)
    {
      if s != NDIRECT {
        OneCovered(off, m, BlockOf(s));
      }
    }
  }

  lemma OneCovered(off: nat, m: nat, bn: nat)
    requires 0 < m && off % BSIZE + m <= BSIZE
    ensures Covers(off, m, bn) <==> bn == off / BSIZE
  {
    var q := off / BSIZE;
    if bn <= q {
      assert bn * BSIZE <= q * BSIZE;
    } else {
      assert bn * BSIZE >= (q + 1) * BSIZE;
    }
  }

  /** A file has no holes exactly if it holds the slots that its bytes want and no others. */
  lemma HoleFreeSlots(v: Vol, meta: nat, i: nat, n: nat)
    requires Shape(v, meta) && i < |v.ino|
    ensures HoleFree(v, meta, i, n) <==> MappedSlots(v, meta, i) == Wanted(0, n)
  {
    SlotMapped(v, meta, i, NDIRECT);
    hide At;
    if HoleFree(v, meta, i, n) {
      forall s: nat | s < SLOTS
        ensures At(v, meta, i, s) != 0 <==> Wants(0, n, s)
      {
        if s != NDIRECT {
          assert FileSlot(BlockOf(s)) == s;
        }
      }
    }
    if MappedSlots(v, meta, i) == Wanted(0, n) {
      assert forall s: nat :: s < SLOTS ==> (s in MappedSlots(v, meta, i) <==> At(v, meta, i, s) != 0);
      forall bn | 0 <= bn < MAXFILE
        ensures At(v, meta, i, FileSlot(bn)) != 0 <==> bn * BSIZE < n
      {
        assert BlockOf(FileSlot(bn)) == bn;
        assert FileSlot(bn) in MappedSlots(v, meta, i) <==> FileSlot(bn) in Wanted(0, n);
      }
      assert NDIRECT in MappedSlots(v, meta, i) <==> NDIRECT in Wanted(0, n);
    }
  }

  /** Inside a file without holes nothing is missing. */
  lemma HoleFreeNeeds(v: Vol, meta: nat, i: nat, off: nat, n: nat)
    requires Shape(v, meta) && i < |v.ino| && HoleFree(v, meta, i, v.ino[i].size) && off + n <= v.ino[i].size
    ensures Needed(v, meta, i, off, n) == 0
  {
    HoleFreeSlots(v, meta, i, v.ino[i].size);
    forall s | s in Wanted(off, n)
      ensures s in Wanted(0, v.ino[i].size)
    {
    }
    assert Wanted(off, n) - MappedSlots(v, meta, i) == {};
  }

  lemma NothingMapped(v: Vol, meta: nat, i: nat)
    requires Shape(v, meta) && i < |v.ino| && forall s :: 0 <= s <= NDIRECT ==> v.ino[i].addrs[s] == 0
    ensures MappedSlots(v, meta, i) == {}
  {
  }

  /* ---- what a write or a read uses up ---- */

  /** Exactly the wanted slots have been filled, and exactly the missing blocks have been taken. */
  ghost predicate Charged(v: Vol, r: Vol, meta: nat, i: nat, off: nat, n: nat) {
    && Shape(v, meta) && Shape(r, meta) && i < |v.ino| && i < |r.ino|
    && MappedSlots(r, meta, i) == MappedSlots(v, meta, i) + Wanted(off, n)
    && |FreeBlocks(v.bitmap)| == |FreeBlocks(r.bitmap)| + Needed(v, meta, i, off, n)
  }

  lemma ChargedNothing(v: Vol, meta: nat, i: nat, off: nat)
    requires Shape(v, meta) && i < |v.ino|
    ensures Charged(v, v, meta, i, off, 0)
  {
    assert Wanted(off, 0) == {};
  }

  /**
  The blocks that are lacking can be had.  Each of them is logged, which panics when no operation is
  open: then only a range that lacks nothing will do.
  */
  predicate Payable(open: bool, free: nat, need: nat) {
    need == 0 || (open && need <= free)
  }

  /** The cost of two ranges, one after the other, is the cost of both together. */
  lemma ChargedTrans(v: Vol, m: Vol, r: Vol, meta: nat, i: nat, off: nat, a: nat, b: nat)
    requires Charged(v, m, meta, i, off, a) && Charged(m, r, meta, i, off + a, b)
    ensures Charged(v, r, meta, i, off, a + b)
  {
    hide Shape, MappedSlots, Wanted, FreeBlocks;
    WantedSplit(off, a, b);
    CostSplit(MappedSlots(v, meta, i), Wanted(off, a), Wanted(off + a, b));
  }

  lemma CostSplit(m: set<nat>, a: set<nat>, b: set<nat>)
    ensures |(a + b) - m| == |a - m| + |b - (m + a)|
  {
    assert (a + b) - m == (a - m) + (b - (m + a));
  }

  /** A longer range lacks at least as much. */
  lemma NeededGrows(v: Vol, meta: nat, i: nat, off: nat, a: nat, b: nat)
    requires Shape(v, meta) && i < |v.ino| && a <= b
    ensures Needed(v, meta, i, off, a) <= Needed(v, meta, i, off, b)
  {
    hide Shape, MappedSlots, Wanted;
    WantedSplit(off, a, b - a);
    var m := MappedSlots(v, meta, i);
    SubsetSize(Wanted(off, a) - m, Wanted(off, b) - m);
  }

  /** When the next piece cannot be paid for, the whole range could not be. */
  lemma CannotPay(v: Vol, w: Vol, meta: nat, i: nat, off: nat, a: nat, b: nat, n: nat)
    requires Charged(v, w, meta, i, off, a) && a + b <= n && |FreeBlocks(w.bitmap)| < Needed(w, meta, i, off + a, b)
    ensures |FreeBlocks(v.bitmap)| < Needed(v, meta, i, off, n)
  {
    hide Shape, MappedSlots, Wanted, FreeBlocks;
    WantedSplit(off, a, b);
    CostSplit(MappedSlots(v, meta, i), Wanted(off, a), Wanted(off + a, b));
    NeededGrows(v, meta, i, off, a + b, n);
  }

  /** A range that lacks something in its next piece lacked it at the start. */
  lemma StillLacking(v: Vol, w: Vol, meta: nat, i: nat, off: nat, a: nat, b: nat, n: nat)
    requires Charged(v, w, meta, i, off, a) && a + b <= n && 0 < Needed(w, meta, i, off + a, b)
    ensures 0 < Needed(v, meta, i, off, n)
  {
    hide Shape, MappedSlots, Wanted, FreeBlocks;
    WantedSplit(off, a, b);
    CostSplit(MappedSlots(v, meta, i), Wanted(off, a), Wanted(off + a, b));
    NeededGrows(v, meta, i, off, a + b, n);
  }

  /* ---- one block ---- */

  /** How many blocks bmap has to allocate for the bn-th file block. */
  ghost function Missing(v: Vol, meta: nat, i: nat, bn: nat): (r: nat)
    requires Shape(v, meta) && i < |v.ino| && bn < MAXFILE
  {
    (if At(v, meta, i, FileSlot(bn)) == 0 then 1 else 0)
    + (if bn >= NDIRECT && v.ino[i].addrs[NDIRECT] == 0 then 1 else 0)
  }

  lemma SlotMapped(v: Vol, meta: nat, i: nat, s: nat)
    requires Shape(v, meta) && i < |v.ino| && s < SLOTS
    ensures s in MappedSlots(v, meta, i) <==> At(v, meta, i, s) != 0
    ensures s == NDIRECT ==> At(v, meta, i, s) == v.ino[i].addrs[NDIRECT]
  {
  }

  lemma TwoMissing(path: set<nat>, mapped: set<nat>, s: nat, t: nat)
    requires s != t && (path == {s} || path == {s, t})
    ensures |path - mapped| == (if s in mapped then 0 else 1) + (if t in path && t !in mapped then 1 else 0)
  {
    if s in mapped {
      assert path - mapped == if t in path && t !in mapped then {t} else {};
    } else if t in path && t !in mapped {
      assert path - mapped == {s, t};
    } else {
      assert path - mapped == {s};
    }
  }

  lemma MissingIsNeeded(v: Vol, meta: nat, i: nat, off: nat, m: nat)
    requires Shape(v, meta) && i < |v.ino| && 0 < m && off % BSIZE + m <= BSIZE && off / BSIZE < MAXFILE
    ensures Missing(v, meta, i, off / BSIZE) == Needed(v, meta, i, off, m)
  {
    hide At, Shape, MappedSlots, Wanted;
    WantedOne(off, m);
    var bn := off / BSIZE;
    SlotMapped(v, meta, i, FileSlot(bn));
    SlotMapped(v, meta, i, NDIRECT);
    TwoMissing(PathSlots(bn), MappedSlots(v, meta, i), FileSlot(bn), NDIRECT);
  }

  lemma GrownSlotsMapped(v: Vol, r: Vol, meta: nat, i: nat, bn: nat)
    requires SlotsGrown(v, r, meta, i, bn)
    ensures MappedSlots(r, meta, i) == MappedSlots(v, meta, i) + PathSlots(bn)
  {
    hide At, Shape;
    forall s: nat | s < SLOTS
      ensures At(r, meta, i, s) != 0 <==> At(v, meta, i, s) != 0 || s in PathSlots(bn)
    {
      assert Valid(v, i, s);
    }
  }

  lemma GrownCharged(v: Vol, r: Vol, meta: nat, i: nat, off: nat, m: nat)
    requires off / BSIZE < MAXFILE && 0 < m && off % BSIZE + m <= BSIZE && SlotsGrown(v, r, meta, i, off / BSIZE)
    requires |FreeBlocks(v.bitmap)| == |FreeBlocks(r.bitmap)| + Missing(v, meta, i, off / BSIZE)
    ensures Charged(v, r, meta, i, off, m)
  {
    hide At, FreeBlocks;
    WantedOne(off, m);
    MissingIsNeeded(v, meta, i, off, m);
    GrownSlotsMapped(v, r, meta, i, off / BSIZE);
  }

  /** Whatever else an inode says does not count. */
  lemma SameAddrsCharged(v: Vol, m: Vol, r: Vol, meta: nat, i: nat, off: nat, n: nat)
    requires Charged(v, m, meta, i, off, n) && SameAddrs(m, r)
    ensures Charged(v, r, meta, i, off, n)
  {
    hide At;
    forall s: nat | s < SLOTS
      ensures At(r, meta, i, s) == At(m, meta, i, s)
    {
      SameAddrsSlots(m, r, meta, i, s);
    }
    assert MappedSlots(r, meta, i) == MappedSlots(m, meta, i);
  }

  /* ---- giving everything back ---- */

  lemma HeldStep(v: Vol, meta: nat, i: nat, s: nat)
    requires Inv(v, meta) && v.orphans == {} && i < |v.ino| && s < SLOTS
    ensures |Held(v.owner, i, 0, s + 1)| == |Held(v.owner, i, 0, s)| + (if At(v, meta, i, s) == 0 then 0 else 1)
  {
    hide At;
    HeldSlot(v, meta, i, 0, s);
    var b := At(v, meta, i, s);
    assert Valid(v, i, s);
    assert b != 0 ==> b !in Held(v.owner, i, 0, s);
  }

  /** The filled slots among the first n. */
  ghost function FilledBelow(v: Vol, meta: nat, i: nat, n: nat): (r: set<nat>)
    requires Shape(v, meta) && i < |v.ino|
  {
    set s: nat | s < n && s in MappedSlots(v, meta, i)
  }

  /** An inode holds as many blocks as it has filled slots. */
  lemma {:induction false} HeldCount(v: Vol, meta: nat, i: nat, n: nat)
    requires Inv(v, meta) && v.orphans == {} && i < |v.ino| && n <= SLOTS
    ensures |Held(v.owner, i, 0, n)| == |FilledBelow(v, meta, i, n)|
    decreases n
  {
    hide At, Owned, Mapped, Shape;
    if n == 0 {
      assert Held(v.owner, i, 0, 0) == {} && FilledBelow(v, meta, i, 0) == {};
    } else {
      HeldCount(v, meta, i, n - 1);
      HeldStep(v, meta, i, n - 1);
      var more: set<nat> := if At(v, meta, i, n - 1) == 0 then {} else {n - 1};
      assert FilledBelow(v, meta, i, n) == FilledBelow(v, meta, i, n - 1) + more;
    }
  }

  lemma Refunded(v: Vol, r: Vol, meta: nat, i: nat)
    requires Inv(v, meta) && v.orphans == {} && i < |v.ino| && |r.bitmap| == |v.bitmap|
    requires forall b :: 0 <= b < |r.bitmap| ==> (r.bitmap[b] <==> v.bitmap[b] && b !in Held(v.owner, i, 0, SLOTS))
    ensures |FreeBlocks(r.bitmap)| == |FreeBlocks(v.bitmap)| + |MappedSlots(v, meta, i)|
  {
    hide At;
    var held := Held(v.owner, i, 0, SLOTS);
    HeldCount(v, meta, i, SLOTS);
    assert FilledBelow(v, meta, i, SLOTS) == MappedSlots(v, meta, i);
    assert FreeBlocks(r.bitmap) == FreeBlocks(v.bitmap) + held;
    assert FreeBlocks(v.bitmap) !! held;
  }
}

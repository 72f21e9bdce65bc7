/**
What one call of writei adds up to: the bytes that change, the slots that are filled and the
blocks that are logged, put together from the passes of its loop.
*/
module FileWrites {
  import opened Prelude
  import opened Blocks
  import opened Ownership
  import opened Space

  function SetAddrs(d: Dinode, addrs: seq<word>): (r: Dinode) {
    Dinode(d.typ, d.major, d.minor, d.nlink, d.size, addrs)
  }

  function SetSize(d: Dinode, size: nat): (r: Dinode) {
    Dinode(d.typ, d.major, d.minor, d.nlink, size, d.addrs)
  }

  /** The entry of addrs through which the bn-th file block is reached. */
  function TopSlot(bn: nat): (s: nat) {
    if bn < NDIRECT then bn else NDIRECT
  }

  /** One entry of addrs may have been filled; the others are the same. */
  ghost predicate TopsGrown(a: seq<word>, r: seq<word>, bn: nat) {
    && |a| == |r| == NDIRECT + 1
    && (forall s :: 0 <= s <= NDIRECT && (s != TopSlot(bn) || a[s] != 0) ==> r[s] == a[s])
    && r[TopSlot(bn)] != 0
  }

  lemma GrownTop(v: Vol, r: Vol, meta: nat, i: nat, bn: nat)
    requires Grown(v, r, meta, i, bn)
    ensures r.ino[i].addrs[TopSlot(bn)] != 0
  {
    hide Owned, Mapped, ByteAt;
  }

  /* ---- blocks covered by a byte range ---- */

  /** How many blocks hold the first n bytes, and how many hold the n bytes from off on. */
  function Ceil(n: nat): (r: nat) {
    (n + BSIZE - 1) / BSIZE
  }

  function Spanned(off: nat, n: nat): (r: nat) {
    if n == 0 then 0 else Ceil(off + n) - off / BSIZE
  }

  /** The passes of the loop: whole blocks, except that the first and the last may be cut. */
  ghost predicate NextPass(off: nat, tot: nat, m: nat) {
    && 0 < m && (off + tot) % BSIZE + m <= BSIZE
    && (tot == 0 || (off + tot) % BSIZE == 0)
  }

  lemma NextBlock(off: nat, tot: nat, m: nat)
    requires NextPass(off, tot, m)
    ensures Spanned(off, tot + m) == Spanned(off, tot) + 1
  {
  }

  lemma NextCovered(off: nat, tot: nat, m: nat, bn: nat)
    requires NextPass(off, tot, m)
    ensures Covers(off, tot + m, bn) <==> Covers(off, tot, bn) || bn == (off + tot) / BSIZE
  {
    var q := (off + tot) / BSIZE;
    if bn <= q {
      assert bn * BSIZE <= q * BSIZE;
    } else {
      assert bn * BSIZE >= (q + 1) * BSIZE;
    }
  }

  lemma NextCeil(size: nat, o: nat, m: nat)
    requires o <= size && 0 < m && o % BSIZE + m <= BSIZE
    ensures Ceil(Max(size, o + m)) == Ceil(size) + if o / BSIZE * BSIZE < size then 0 else 1
  {
  }

  /** However the range lies, 1536 bytes lie in at most four blocks and need at most three new ones. */
  lemma ChunkBlocks(size: nat, off: nat, n: nat)
    requires n <= 1536 && off <= size
    ensures Spanned(off, n) <= 4 && Ceil(Max(size, off + n)) - Ceil(size) <= 3
  {
  }

  /* ---- addrs over the whole call ---- */

  ghost predicate TopsPassed(a: seq<word>, r: seq<word>, off: nat, n: nat) {
    && |a| == |r| == NDIRECT + 1
    && (forall s :: 0 <= s <= NDIRECT && a[s] != 0 ==> r[s] == a[s])
    && (forall s :: 0 <= s <= NDIRECT && r[s] != a[s] ==> exists bn: nat :: Covers(off, n, bn) && TopSlot(bn) == s)
    && (forall bn: nat :: Covers(off, n, bn) ==> r[TopSlot(bn)] != 0)
  }

  /** Every block of the range can be reached without filling an entry of addrs. */
  ghost predicate TopsFilled(a: seq<word>, off: nat, n: nat) {
    |a| == NDIRECT + 1 && forall bn: nat :: Covers(off, n, bn) ==> a[TopSlot(bn)] != 0
  }

  lemma TopsNext(a: seq<word>, m: seq<word>, r: seq<word>, off: nat, n: nat, k: nat)
    requires TopsPassed(a, m, off, n) && NextPass(off, n, k) && TopsGrown(m, r, (off + n) / BSIZE)
    ensures TopsPassed(a, r, off, n + k)
  {
    hide Covers;
    forall bn: nat
      ensures Covers(off, n + k, bn) <==> Covers(off, n, bn) || bn == (off + n) / BSIZE
    {
      NextCovered(off, n, k, bn);
    }
    forall s | 0 <= s <= NDIRECT && r[s] != a[s]
      ensures exists bn: nat :: Covers(off, n + k, bn) && TopSlot(bn) == s
    {
      if m[s] == a[s] {
        assert Covers(off, n + k, (off + n) / BSIZE) && TopSlot((off + n) / BSIZE) == s;
      } else {
        var bn: nat :| Covers(off, n, bn) && TopSlot(bn) == s;
        assert Covers(off, n + k, bn);
      }
    }
  }

  lemma TopsKept(a: seq<word>, r: seq<word>, off: nat, n: nat)
    requires TopsPassed(a, r, off, n)
    ensures |a| == |r| == NDIRECT + 1 && forall s :: 0 <= s <= NDIRECT && a[s] != 0 ==> r[s] == a[s]
  {
  }

  lemma InvShape(v: Vol, meta: nat)
    requires Inv(v, meta)
    ensures Shape(v, meta) && forall i :: 0 <= i < |v.ino| ==> |v.ino[i].addrs| == NDIRECT + 1
  {
  }

  lemma TopsUnchanged(a: seq<word>, r: seq<word>, off: nat, n: nat)
    requires TopsPassed(a, r, off, n)
    ensures r == a <==> TopsFilled(a, off, n)
  {
  }

  /** Inside a file without holes nothing is missing. */
  lemma HoleFreeFilled(v: Vol, meta: nat, i: nat, off: nat, n: nat)
    requires Shape(v, meta) && i < |v.ino| && v.ino[i].size <= MAXFILE * BSIZE && HoleFree(v, meta, i, v.ino[i].size)
    requires off + n <= v.ino[i].size
    ensures TopsFilled(v.ino[i].addrs, off, n)
  {
    forall bn: nat | Covers(off, n, bn)
      ensures v.ino[i].addrs[TopSlot(bn)] != 0
    {
      assert At(v, meta, i, FileSlot(bn)) != 0;
    }
  }

  /* ---- what must be logged ---- */

  const BPB := 4096

  /** The bitmap block that holds the bit of block b, when the bitmap begins at block bms. */
  function MapBlock(bms: nat, b: nat): (r: nat) {
    b / BPB + bms
  }

  /** Every block that has changed is among the logged ones, and so is every bitmap block with a changed bit. */
  ghost predicate Recorded(bms: nat, v: Vol, l: set<nat>, r: Vol, k: set<nat>) {
    && l <= k && |r.data| == |v.data| && |r.bitmap| == |v.bitmap|
    && (forall b :: 0 <= b < |v.data| && r.data[b] != v.data[b] ==> b in k)
    && (forall b :: 0 <= b < |v.bitmap| && r.bitmap[b] != v.bitmap[b] ==> MapBlock(bms, b) in k)
  }

  lemma RecordedRefl(bms: nat, v: Vol, l: set<nat>)
    ensures Recorded(bms, v, l, v, l)
  {
  }

  lemma RecordedTrans(bms: nat, v: Vol, l: set<nat>, m: Vol, j: set<nat>, r: Vol, k: set<nat>)
    requires Recorded(bms, v, l, m, j) && Recorded(bms, m, j, r, k)
    ensures Recorded(bms, v, l, r, k)
  {
  }

  /** A block given out: its bit and its zeroes are logged. */
  lemma RecordedTop(bms: nat, v: Vol, l: set<nat>, i: nat, s: nat, b: word)
    requires i < |v.ino| && s < |v.ino[i].addrs| && b < |v.bitmap| && b < |v.data|
    ensures Recorded(bms, v, l, GiveTop(v, i, s, b), l + {MapBlock(bms, b), b as nat})
  {
  }

  lemma RecordedEntry(bms: nat, v: Vol, l: set<nat>, i: nat, a: word, k: nat, b: word)
    requires i < |v.ino| && k < NINDIRECT && b < |v.bitmap| && b < |v.data| && a < |v.data|
    ensures Recorded(bms, v, l, GiveEntry(v, i, a, k, b), l + {MapBlock(bms, b), b as nat, a as nat})
  {
  }

  lemma RecordedPut(bms: nat, v: Vol, l: set<nat>, b: nat, d: Block)
    requires b < |v.data|
    ensures Recorded(bms, v, l, Put(v, b, d), l + {b})
  {
  }

  lemma RecordedMore(bms: nat, v: Vol, l: set<nat>, m: Vol, j: set<nat>, r: Vol, k: set<nat>)
    requires Recorded(bms, v, l, m, j) && j <= k && r.data == m.data && r.bitmap == m.bitmap
    ensures Recorded(bms, v, l, r, k)
  {
  }

  lemma RecordedBit(bms: nat, v: Vol, l: set<nat>, r: Vol, b: nat)
    requires b < |v.bitmap| && r.bitmap == v.bitmap[b := false] && r.data == v.data
    ensures Recorded(bms, v, l, r, l + {MapBlock(bms, b)})
  {
  }

  /* ---- one pass ---- */

  /** One pass wrote src at off into block b; bm are the bitmap blocks that it logged. */
  ghost predicate OneWritten(v: Vol, l: set<nat>, r: Vol, k: set<nat>, meta: nat, i: nat, off: nat, src: seq<byte>,
                             b: nat, bm: set<nat>) {
    && Inv(v, meta) && Inv(r, meta) && i < |v.ino| && off / BSIZE < MAXFILE
    && Wrote(v, r, meta, i, off, src) && SlotsGrown(v, r, meta, i, off / BSIZE)
    && r.ino == v.ino[i := SetAddrs(v.ino[i], r.ino[i].addrs)]
    && TopsGrown(v.ino[i].addrs, r.ino[i].addrs, off / BSIZE)
    && k <= l + bm + {b} + (if off / BSIZE < NDIRECT then {} else IndirectOf(r.ino[i].addrs))
    && |bm| <= (if At(v, meta, i, FileSlot(off / BSIZE)) == 0 then 1 else 0)
               + NewIndirect(v.ino[i].addrs, r.ino[i].addrs)
    && |FreeBlocks(v.bitmap)| == |FreeBlocks(r.bitmap)| + Missing(v, meta, i, off / BSIZE)
  }

  ghost function IndirectOf(addrs: seq<word>): (r: set<nat>)
    requires |addrs| == NDIRECT + 1
    ensures |r| <= 1
  {
    if addrs[NDIRECT] == 0 then {} else {addrs[NDIRECT] as nat}
  }

  ghost function NewIndirect(a: seq<word>, r: seq<word>): nat
    requires |a| == |r| == NDIRECT + 1
  {
    if a[NDIRECT] == 0 && r[NDIRECT] != 0 then 1 else 0
  }

  /** bmap and then the copy make up one pass. */
  lemma MappedOneWritten(v: Vol, l: set<nat>, m: Vol, k: set<nat>, meta: nat, i: nat, off: nat, src: seq<byte>,
                         bm: set<nat>)
    requires off / BSIZE < MAXFILE && off % BSIZE + |src| <= BSIZE && Grown(v, m, meta, i, off / BSIZE)
    requires m.ino == v.ino[i := SetAddrs(v.ino[i], m.ino[i].addrs)]
    requires forall s :: 0 <= s <= NDIRECT && s != TopSlot(off / BSIZE) ==> m.ino[i].addrs[s] == v.ino[i].addrs[s]
    requires v.ino[i].addrs[TopSlot(off / BSIZE)] != 0 ==> m.ino == v.ino
    requires k <= l + bm + {At(m, meta, i, FileSlot(off / BSIZE))}
                  + (if off / BSIZE < NDIRECT then {} else {m.ino[i].addrs[NDIRECT] as nat})
    requires |bm| <= (if At(v, meta, i, FileSlot(off / BSIZE)) == 0 then 1 else 0)
                     + (if off / BSIZE >= NDIRECT && v.ino[i].addrs[NDIRECT] == 0 then 1 else 0)
    requires |FreeBlocks(m.bitmap)| == |FreeBlocks(v.bitmap)| - Missing(v, meta, i, off / BSIZE)
    ensures var b := At(m, meta, i, FileSlot(off / BSIZE));
            && b < |m.data| && Inv(Put(m, b, Patch(m.data[b], off % BSIZE, src)), meta)
            && OneWritten(v, l, Put(m, b, Patch(m.data[b], off % BSIZE, src)), k + {b}, meta, i, off, src, b, bm)
  {
    hide Owned, Mapped, Wrote, SlotsGrown, At, Patch, ByteAt, FreeBlocks;
    PatchWrote(v, m, meta, i, off, src);
    GrownTop(v, m, meta, i, off / BSIZE);
  }

  /* ---- other inodes ---- */

  /** The slots of every inode but i are as before. */
  ghost predicate OthersKept(v: Vol, r: Vol, meta: nat, i: nat) {
    && Shape(v, meta) && Shape(r, meta) && |r.ino| == |v.ino|
    && forall j, t :: Valid(v, j, t) && j != i ==> At(r, meta, j, t) == At(v, meta, j, t)
  }

  lemma GrownOthers(v: Vol, m: Vol, r: Vol, meta: nat, i: nat, bn: nat)
    requires OthersKept(v, m, meta, i) && SlotsGrown(m, r, meta, i, bn)
    ensures OthersKept(v, r, meta, i)
  {
    hide At, Shape;
    forall j: nat, t: nat | Valid(v, j, t) && j != i
      ensures At(r, meta, j, t) == At(v, meta, j, t)
    {
      assert Valid(m, j, t) && !Touches(i, bn, j, t);
    }
  }

  lemma GrownSlots(v: Vol, r: Vol, meta: nat, i: nat, bn: nat)
    requires Grown(v, r, meta, i, bn)
    ensures SlotsGrown(v, r, meta, i, bn)
  {
    hide At, Shape, ByteAt;
  }

  lemma OthersReflexive(v: Vol, meta: nat, i: nat)
    requires Shape(v, meta)
    ensures OthersKept(v, v, meta, i)
  {
  }

  lemma SameAddrsOthers(v: Vol, m: Vol, r: Vol, meta: nat, i: nat)
    requires OthersKept(v, m, meta, i) && SameAddrs(m, r)
    ensures OthersKept(v, r, meta, i)
  {
    hide At;
    forall j: nat, t: nat | Valid(v, j, t)
      ensures At(r, meta, j, t) == At(m, meta, j, t)
    {
      SameAddrsSlots(m, r, meta, j, t);
    }
  }

  lemma SameInodeOthers(v: Vol, r: Vol, meta: nat, i: nat)
    requires Shape(v, meta) && Shape(r, meta) && r.data == v.data && |r.ino| == |v.ino|
    requires forall j :: 0 <= j < |v.ino| && j != i ==> r.ino[j] == v.ino[j]
    ensures OthersKept(v, r, meta, i)
  {
  }

  /** So they stay free of holes. */
  lemma OthersHoleFree(v: Vol, r: Vol, meta: nat, i: nat, j: nat, n: nat)
    requires OthersKept(v, r, meta, i) && j < |v.ino| && j != i && HoleFree(v, meta, j, n)
    ensures HoleFree(r, meta, j, n)
  {
    forall k | 0 <= k < MAXFILE
      ensures At(r, meta, j, FileSlot(k)) == At(v, meta, j, FileSlot(k))
    {
      assert Valid(v, j, FileSlot(k));
    }
    assert Valid(v, j, NDIRECT) && At(v, meta, j, NDIRECT) == v.ino[j].addrs[NDIRECT];
    assert At(r, meta, j, NDIRECT) == r.ino[j].addrs[NDIRECT];
  }

  /* ---- all passes so far ---- */

  /**
  The passes so far wrote src at off.  They logged the data blocks dt, the bitmap blocks bm and
  perhaps the indirect block.  A file of `size` bytes that had no holes has none now.
  */
  ghost predicate Written(v: Vol, l: set<nat>, r: Vol, k: set<nat>, meta: nat, i: nat, off: nat, src: seq<byte>,
                          bm: set<nat>, dt: set<nat>) {
    && Inv(v, meta) && Inv(r, meta) && i < |v.ino| && off <= v.ino[i].size
    && Wrote(v, r, meta, i, off, src) && OthersKept(v, r, meta, i)
    && r.ino == v.ino[i := SetAddrs(v.ino[i], r.ino[i].addrs)]
    && TopsPassed(v.ino[i].addrs, r.ino[i].addrs, off, |src|)
    && Logged(l, k, bm, dt, r.ino[i].addrs) && |dt| <= Spanned(off, |src|)
    && Charged(v, r, meta, i, off, |src|)
    && (HoleFree(v, meta, i, v.ino[i].size) ==> Compact(v, r, meta, i, Max(v.ino[i].size, off + |src|), bm))
  }

  ghost predicate Logged(l: set<nat>, k: set<nat>, bm: set<nat>, dt: set<nat>, addrs: seq<word>)
    requires |addrs| == NDIRECT + 1
  {
    k <= l + bm + dt + IndirectOf(addrs)
  }

  lemma LoggedNext(l: set<nat>, k: set<nat>, j: set<nat>, bm: set<nat>, dt: set<nat>, a: seq<word>, r: seq<word>,
                   bn: nat, b: nat, b1: set<nat>)
    requires TopsGrown(a, r, bn) && Logged(l, k, bm, dt, a)
    requires j <= k + b1 + {b} + (if bn < NDIRECT then {} else IndirectOf(r))
    ensures Logged(l, j, bm + b1, dt + {b}, r)
  {
  }

  ghost predicate Compact(v: Vol, r: Vol, meta: nat, i: nat, n: nat, bm: set<nat>)
    requires Shape(v, meta) && Shape(r, meta) && i < |v.ino| && i < |r.ino|
  {
    HoleFree(r, meta, i, n) && |bm| <= Ceil(n) - Ceil(v.ino[i].size) + NewIndirect(v.ino[i].addrs, r.ino[i].addrs)
  }

  lemma WrittenNothing(v: Vol, l: set<nat>, meta: nat, i: nat, off: nat)
    requires Inv(v, meta) && i < |v.ino| && off <= v.ino[i].size
    ensures Written(v, l, v, l, meta, i, off, [], {}, {})
  {
    hide Owned, Mapped, HoleFree, Wrote, OthersKept, Charged;
    WroteNothing(v, meta, i, off);
    OthersReflexive(v, meta, i);
    ChargedNothing(v, meta, i, off);
    assert v.ino == v.ino[i := SetAddrs(v.ino[i], v.ino[i].addrs)];
  }

  lemma CompactNext(v: Vol, m: Vol, r: Vol, meta: nat, i: nat, n: nat, o: nat, k: nat, bm: set<nat>, b1: set<nat>)
    requires Shape(v, meta) && i < |v.ino| && i < |m.ino| && o <= n && 0 < k && o % BSIZE + k <= BSIZE
    requires SlotsGrown(m, r, meta, i, o / BSIZE) && Compact(v, m, meta, i, n, bm)
    requires forall s :: 0 <= s <= NDIRECT && v.ino[i].addrs[s] != 0 ==> m.ino[i].addrs[s] == v.ino[i].addrs[s]
    requires TopsGrown(m.ino[i].addrs, r.ino[i].addrs, o / BSIZE)
    requires |b1| <= (if At(m, meta, i, FileSlot(o / BSIZE)) == 0 then 1 else 0)
                     + NewIndirect(m.ino[i].addrs, r.ino[i].addrs)
    ensures Compact(v, r, meta, i, Max(n, o + k), bm + b1)
  {
    hide SlotsGrown, At;
    HoleFreeStep(m, r, meta, i, n, o, k);
    NextCeil(n, o, k);
    UnionSize(bm, b1);
  }

  lemma OneMore<T>(a: set<T>, b: set<T>, x: T)
    ensures |a + {x} - b| <= |a - b| + 1
  {
    SubsetSize(a + {x} - b, (a - b) + {x});
  }

  lemma WrittenNext(v: Vol, l: set<nat>, m: Vol, k: set<nat>, r: Vol, j: set<nat>, meta: nat, i: nat, off: nat,
                    s: seq<byte>, t: seq<byte>, bm: set<nat>, dt: set<nat>, b: nat, b1: set<nat>)
    requires Written(v, l, m, k, meta, i, off, s, bm, dt) && NextPass(off, |s|, |t|)
    requires OneWritten(m, k, r, j, meta, i, off + |s|, t, b, b1)
    ensures Written(v, l, r, j, meta, i, off, s + t, bm + b1, dt + {b})
  {
    hide Inv, Shape, Wrote, SlotsGrown, At, HoleFree, Compact, Spanned, Logged, TopsPassed, TopsGrown, NewIndirect,
         OthersKept, FreeBlocks, Charged, Missing;
    GrownCharged(m, r, meta, i, off + |s|, |t|);
    ChargedTrans(v, m, r, meta, i, off, |s|, |t|);
    GrownOthers(v, m, r, meta, i, (off + |s|) / BSIZE);
    InvShape(v, meta);
    InvShape(m, meta);
    TopsKept(v.ino[i].addrs, m.ino[i].addrs, off, |s|);
    LoggedNext(l, k, j, bm, dt, m.ino[i].addrs, r.ino[i].addrs, (off + |s|) / BSIZE, b, b1);
    WroteTrans(v, m, r, meta, i, off, s, t);
    NextBlock(off, |s|, |t|);
    TopsNext(v.ino[i].addrs, m.ino[i].addrs, r.ino[i].addrs, off, |s|, |t|);
    UnionSize(dt, {b});
    if HoleFree(v, meta, i, v.ino[i].size) {
      CompactNext(v, m, r, meta, i, Max(v.ino[i].size, off + |s|), off + |s|, |t|, bm, b1);
    }
  }

  /** A chunk of at most 1536 bytes into a file without holes logs at most nine blocks besides the inode's. */
  lemma ChunkLogged(v: Vol, l: set<nat>, r: Vol, k: set<nat>, meta: nat, i: nat, off: nat, src: seq<byte>,
                    bm: set<nat>, dt: set<nat>)
    requires Written(v, l, r, k, meta, i, off, src, bm, dt)
    requires |src| <= 1536 && HoleFree(v, meta, i, v.ino[i].size)
    ensures |k - l| <= 9
  {
    hide Owned, Mapped, Wrote, HoleFree, TopsPassed, Ceil, Spanned, OthersKept, Charged;
    ChunkBlocks(v.ino[i].size, off, |src|);
    var all := bm + dt + IndirectOf(r.ino[i].addrs);
    SubsetSize(k - l, all);
    UnionSize(bm + dt, IndirectOf(r.ino[i].addrs));
    UnionSize(bm, dt);
  }

  lemma WrittenLength(v: Vol, l: set<nat>, r: Vol, k: set<nat>, meta: nat, i: nat, off: nat, src: seq<byte>,
                      bm: set<nat>, dt: set<nat>)
    requires Written(v, l, r, k, meta, i, off, src, bm, dt)
    ensures |r.ino| == |v.ino| && i < |v.ino| && r.ino[i].size == v.ino[i].size
  {
  }

  lemma WrittenCharged(v: Vol, l: set<nat>, r: Vol, k: set<nat>, meta: nat, i: nat, off: nat, src: seq<byte>,
                       bm: set<nat>, dt: set<nat>)
    requires Written(v, l, r, k, meta, i, off, src, bm, dt)
    ensures Charged(v, r, meta, i, off, |src|)
    ensures |FreeBlocks(v.bitmap)| >= Needed(v, meta, i, off, |src|)
  {
  }

  lemma WrittenMeans(v: Vol, l: set<nat>, r: Vol, k: set<nat>, meta: nat, i: nat, off: nat, src: seq<byte>,
                     bm: set<nat>, dt: set<nat>)
    requires Written(v, l, r, k, meta, i, off, src, bm, dt) && v.ino[i].size <= MAXFILE * BSIZE
    ensures Shape(v, meta) && Shape(r, meta) && |r.ino| == |v.ino| && i < |v.ino| && off <= v.ino[i].size
    ensures Wrote(v, r, meta, i, off, src) && OthersKept(v, r, meta, i)
    ensures r.ino == v.ino[i := SetAddrs(v.ino[i], r.ino[i].addrs)]
    ensures r.ino[i].addrs == v.ino[i].addrs <==> TopsFilled(v.ino[i].addrs, off, |src|)
    ensures Charged(v, r, meta, i, off, |src|)
    ensures HoleFree(v, meta, i, v.ino[i].size) ==>
              && HoleFree(r, meta, i, Max(v.ino[i].size, off + |src|))
              && (off + |src| <= v.ino[i].size ==> TopsFilled(v.ino[i].addrs, off, |src|))
              && (|src| <= 1536 ==> |k - l| <= 9)
  {
    hide Owned, Mapped, Wrote, HoleFree, TopsPassed, TopsFilled, Logged, Spanned, OthersKept, Charged;
    TopsUnchanged(v.ino[i].addrs, r.ino[i].addrs, off, |src|);
    if HoleFree(v, meta, i, v.ino[i].size) {
      if off + |src| <= v.ino[i].size {
        HoleFreeFilled(v, meta, i, off, |src|);
      }
      if |src| <= 1536 {
        ChunkLogged(v, l, r, k, meta, i, off, src, bm, dt);
      }
    }
  }

  /* ---- a file is a byte sequence ---- */

  ghost function Content(v: Vol, meta: nat, i: nat): (c: seq<byte>)
    requires Shape(v, meta) && i < |v.ino| && v.ino[i].size <= MAXFILE * BSIZE
    ensures |c| == v.ino[i].size
  {
    seq(v.ino[i].size, p requires 0 <= p < v.ino[i].size => ByteAt(v, meta, i, p))
  }

  /** src laid over c at off, reaching beyond the end if need be. */
  function Splice(c: seq<byte>, off: nat, src: seq<byte>): (r: seq<byte>)
    requires off <= |c|
  {
    c[..off] + src + (if off + |src| < |c| then c[off + |src|..] else [])
  }

  lemma WriteRefines(v: Vol, r: Vol, meta: nat, i: nat, off: nat, src: seq<byte>)
    requires Wrote(v, r, meta, i, off, src) && off <= v.ino[i].size
    requires r.ino[i].size == Max(v.ino[i].size, off + |src|) <= MAXFILE * BSIZE
    ensures Content(r, meta, i) == Splice(Content(v, meta, i), off, src)
  {
    hide Shape, ByteAt;
  }

  /** The contents of the other files stay. */
  lemma WriteFrames(v: Vol, r: Vol, meta: nat, i: nat, off: nat, src: seq<byte>, j: nat)
    requires Wrote(v, r, meta, i, off, src) && j < |v.ino| && j != i
    requires r.ino[j].size == v.ino[j].size <= MAXFILE * BSIZE
    ensures Content(r, meta, j) == Content(v, meta, j)
  {
    hide Shape, ByteAt;
  }

  /** s are the bytes of file i from off on. */
  ghost predicate Holds(v: Vol, meta: nat, i: nat, off: nat, s: seq<byte>) {
    && Shape(v, meta) && i < |v.ino| && off + |s| <= MAXFILE * BSIZE
    && forall k :: 0 <= k < |s| ==> s[k] == ByteAt(v, meta, i, off + k)
  }

  lemma ReadRefines(v: Vol, meta: nat, i: nat, off: nat, s: seq<byte>)
    requires Holds(v, meta, i, off, s) && off + |s| <= v.ino[i].size <= MAXFILE * BSIZE
    ensures s == Content(v, meta, i)[off..off + |s|]
  {
    hide Shape, ByteAt;
  }

  /* ---- the passes of readi ---- */

  lemma HoldsNothing(v: Vol, meta: nat, i: nat, off: nat)
    requires Shape(v, meta) && i < |v.ino| && off <= MAXFILE * BSIZE
    ensures Holds(v, meta, i, off, [])
  {
  }

  lemma HoleFreeMapped(v: Vol, meta: nat, i: nat, o: nat)
    requires Shape(v, meta) && i < |v.ino| && v.ino[i].size <= MAXFILE * BSIZE
    requires HoleFree(v, meta, i, v.ino[i].size) && o < v.ino[i].size
    ensures At(v, meta, i, FileSlot(o / BSIZE)) != 0
  {
  }

  /** m bytes from the block that is mapped at o. */
  ghost function SliceAt(v: Vol, meta: nat, i: nat, o: nat, m: nat): (s: seq<byte>)
    requires Shape(v, meta) && i < |v.ino| && o / BSIZE < MAXFILE && o % BSIZE + m <= BSIZE
  {
    var b := At(v, meta, i, FileSlot(o / BSIZE));
    if b < |v.data| then v.data[b][o % BSIZE..o % BSIZE + m] else []
  }

  /** The next slice read from the mapped block continues the bytes of the file as it was. */
  lemma GrownReads(v: Vol, w: Vol, r: Vol, meta: nat, i: nat, off: nat, s: seq<byte>, o: nat, m: nat)
    requires Wrote(v, w, meta, i, off, []) && o / BSIZE < MAXFILE && Grown(w, r, meta, i, o / BSIZE)
    requires Holds(v, meta, i, off, s) && o == off + |s| && o % BSIZE + m <= BSIZE
    ensures |SliceAt(r, meta, i, o, m)| == m && Holds(v, meta, i, off, s + SliceAt(r, meta, i, o, m))
    ensures Wrote(v, r, meta, i, off, [])
  {
    hide At, Mapped, ByteAt;
    var b := At(r, meta, i, FileSlot(o / BSIZE));
    assert Valid(r, i, FileSlot(o / BSIZE));
    assert b in r.owner;
    var t := r.data[b][o % BSIZE..o % BSIZE + m];
    forall k | 0 <= k < m
      ensures t[k] == ByteAt(v, meta, i, o + k)
    {
      SameBlockOffset(o, m, o + k);
      ByteInBlock(r, meta, i, o + k, b);
    }
  }

  /**
  The passes so far have read dst and changed no byte.  Holes in the way have been filled; without
  holes nothing has changed at all.
  */
  ghost predicate ReadSoFar(v: Vol, l: set<nat>, r: Vol, k: set<nat>, meta: nat, i: nat, off: nat, dst: seq<byte>) {
    && Inv(v, meta) && Inv(r, meta) && i < |v.ino| == |r.ino| && off + |dst| <= v.ino[i].size <= MAXFILE * BSIZE
    && r.ino == v.ino[i := SetAddrs(v.ino[i], r.ino[i].addrs)]
    && Wrote(v, r, meta, i, off, []) && OthersKept(v, r, meta, i) && Holds(v, meta, i, off, dst)
    && TopsPassed(v.ino[i].addrs, r.ino[i].addrs, off, |dst|) && Charged(v, r, meta, i, off, |dst|)
    && (HoleFree(v, meta, i, v.ino[i].size) ==> r == v && k == l)
  }

  lemma ReadNothing(v: Vol, l: set<nat>, meta: nat, i: nat, off: nat)
    requires Inv(v, meta) && i < |v.ino| && off <= v.ino[i].size <= MAXFILE * BSIZE
    ensures ReadSoFar(v, l, v, l, meta, i, off, [])
  {
    hide Owned, Mapped, HoleFree, Wrote, Holds, OthersKept, Charged;
    ChargedNothing(v, meta, i, off);
    WroteNothing(v, meta, i, off);
    HoldsNothing(v, meta, i, off);
    OthersReflexive(v, meta, i);
    assert v.ino == v.ino[i := SetAddrs(v.ino[i], v.ino[i].addrs)];
  }

  lemma ReadMeans(v: Vol, l: set<nat>, r: Vol, k: set<nat>, meta: nat, i: nat, off: nat, dst: seq<byte>)
    requires ReadSoFar(v, l, r, k, meta, i, off, dst)
    ensures Shape(v, meta) && Shape(r, meta) && i < |v.ino| == |r.ino|
    ensures r.ino == v.ino[i := SetAddrs(v.ino[i], r.ino[i].addrs)]
    ensures Wrote(v, r, meta, i, off, []) && OthersKept(v, r, meta, i) && Holds(v, meta, i, off, dst)
    ensures HoleFree(v, meta, i, v.ino[i].size) ==> r == v && k == l
    ensures r.ino[i].addrs == v.ino[i].addrs <==> TopsFilled(v.ino[i].addrs, off, |dst|)
    ensures Charged(v, r, meta, i, off, |dst|)
    ensures forall j :: 0 <= j < |r.ino| ==> r.ino[j].size == v.ino[j].size
  {
    hide Owned, Mapped, HoleFree, Wrote, Holds, OthersKept, Charged, TopsPassed, TopsFilled;
    TopsUnchanged(v.ino[i].addrs, r.ino[i].addrs, off, |dst|);
  }

  /** bmap has mapped the bn-th file block for a reader. */
  ghost predicate Remapped(w: Vol, k: set<nat>, r: Vol, j: set<nat>, meta: nat, i: nat, bn: nat) {
    && bn < MAXFILE && Grown(w, r, meta, i, bn) && i < |w.ino| == |r.ino|
    && r.ino == w.ino[i := SetAddrs(w.ino[i], r.ino[i].addrs)] && TopsGrown(w.ino[i].addrs, r.ino[i].addrs, bn)
    && (At(w, meta, i, FileSlot(bn)) != 0 ==> r == w && j == k)
    && |FreeBlocks(r.bitmap)| == |FreeBlocks(w.bitmap)| - Missing(w, meta, i, bn)
  }

  lemma BmapRemapped(w: Vol, k: set<nat>, r: Vol, j: set<nat>, meta: nat, i: nat, bn: nat)
    requires bn < MAXFILE && Grown(w, r, meta, i, bn) && i < |w.ino| == |r.ino|
    requires r.ino == w.ino[i := SetAddrs(w.ino[i], r.ino[i].addrs)]
    requires |w.ino[i].addrs| == |r.ino[i].addrs| == NDIRECT + 1
    requires forall s :: 0 <= s <= NDIRECT && s != TopSlot(bn) ==> r.ino[i].addrs[s] == w.ino[i].addrs[s]
    requires w.ino[i].addrs[TopSlot(bn)] != 0 ==> r.ino == w.ino
    requires At(w, meta, i, FileSlot(bn)) != 0 ==> r == w && j == k
    requires |FreeBlocks(r.bitmap)| == |FreeBlocks(w.bitmap)| - Missing(w, meta, i, bn)
    ensures Remapped(w, k, r, j, meta, i, bn)
  {
    hide Owned, Mapped, Grown, At, FreeBlocks, Missing;
    GrownTop(w, r, meta, i, bn);
  }

  lemma ReadNext(v: Vol, l: set<nat>, w: Vol, k: set<nat>, r: Vol, j: set<nat>, meta: nat, i: nat, off: nat,
                 dst: seq<byte>, m: nat, t: seq<byte>)
    requires NextPass(off, |dst|, m) && i < |v.ino| && off + |dst| + m <= v.ino[i].size <= MAXFILE * BSIZE
    requires Shape(r, meta) && i < |r.ino| && t == SliceAt(r, meta, i, off + |dst|, m)
    requires ReadSoFar(v, l, w, k, meta, i, off, dst) && Remapped(w, k, r, j, meta, i, (off + |dst|) / BSIZE)
    ensures ReadSoFar(v, l, r, j, meta, i, off, dst + t)
  {
    hide Owned, Mapped, HoleFree, Wrote, Holds, OthersKept, FreeBlocks, Grown, At, Charged, Missing, TopsPassed,
         TopsGrown, SliceAt;
    var o := off + |dst|;
    if HoleFree(v, meta, i, v.ino[i].size) {
      HoleFreeMapped(v, meta, i, o);
    }
    GrownReads(v, w, r, meta, i, off, dst, o, m);
    GrownSlots(w, r, meta, i, o / BSIZE);
    GrownOthers(v, w, r, meta, i, o / BSIZE);
    GrownInv(w, r, meta, i, o / BSIZE);
    GrownCharged(w, r, meta, i, o, m);
    ChargedTrans(v, w, r, meta, i, off, |dst|, m);
    TopsNext(v.ino[i].addrs, w.ino[i].addrs, r.ino[i].addrs, off, |dst|, m);
  }

  lemma GrownInv(v: Vol, r: Vol, meta: nat, i: nat, bn: nat)
    requires Grown(v, r, meta, i, bn)
    ensures Inv(r, meta) && |r.ino| == |v.ino|
  {
  }

  /** A pass that cannot have its blocks shows that the range could not have them at the start. */
  lemma PassFails(open: bool, v: Vol, w: Vol, meta: nat, i: nat, off: nat, tot: nat, m: nat, n: nat)
    requires Charged(v, w, meta, i, off, tot) && NextPass(off, tot, m) && tot + m <= n && off + n <= MAXFILE * BSIZE
    requires !Payable(open, |FreeBlocks(w.bitmap)|, Missing(w, meta, i, (off + tot) / BSIZE))
    ensures !Payable(open, |FreeBlocks(v.bitmap)|, Needed(v, meta, i, off, n))
  {
    hide Charged, Needed, Missing, FreeBlocks;
    ChargedShape(v, w, meta, i, off, tot);
    MissingIsNeeded(w, meta, i, off + tot, m);
    StillLacking(v, w, meta, i, off, tot, m, n);
    if open {
      CannotPay(v, w, meta, i, off, tot, m, n);
    }
  }

  lemma EnoughFree(v: Vol, r: Vol, meta: nat, i: nat, off: nat, n: nat)
    requires Charged(v, r, meta, i, off, n)
    ensures |FreeBlocks(v.bitmap)| >= Needed(v, meta, i, off, n)
    ensures r.bitmap == v.bitmap ==> Needed(v, meta, i, off, n) == 0
  {
  }

  lemma ChargedShape(v: Vol, r: Vol, meta: nat, i: nat, off: nat, n: nat)
    requires Charged(v, r, meta, i, off, n)
    ensures Shape(v, meta) && Shape(r, meta) && i < |v.ino| && i < |r.ino|
  {
  }
}
